/** Addresses and prefixes shared by the certificate, the packet parser and the firewall. */
module Net {
  import opened Bits
  import opened Bytes

  type Octets4 = s: bytes | |s| == 4 witness [0, 0, 0, 0]
  type Octets16 = s: bytes | |s| == 16 witness [0, 0, 0, 0, 0, 0, 0, 0, 0, 0, 0, 0, 0, 0, 0, 0]

  datatype IpAddr = V4(v4: Octets4) | V6(v6: Octets16)

  function Octets(a: IpAddr): bytes {
    if a.V4? then a.v4 else a.v6
  }

  /** A prefix as the cidr library holds it: an address, host bits included, and a length. */
  datatype IpNet = IpNet(addr: IpAddr, prefixLen: nat)

  function MaxPrefixLen(a: IpAddr): nat {
    if a.V4? then 32 else 128
  }

  /** The first `n` bits of an address. */
  function NetworkPart(a: IpAddr, n: nat): nat {
    Shr(FromBE(Octets(a)), if n >= MaxPrefixLen(a) then 0 else MaxPrefixLen(a) - n)
  }

  predicate Contains(net: IpNet, a: IpAddr) {
    net.addr.V4? == a.V4? && NetworkPart(net.addr, net.prefixLen) == NetworkPart(a, net.prefixLen)
  }

  /** A prefix contains the addresses of its own family that agree with it in the first bits,
      those from place `max - length` up, and no others. */
  lemma ContainsIsPrefixMatch(net: IpNet, a: IpAddr)
    requires net.prefixLen <= MaxPrefixLen(net.addr)
    ensures Contains(net, a) <==>
            net.addr.V4? == a.V4?
            && AgreeFrom(FromBE(Octets(net.addr)), FromBE(Octets(a)), MaxPrefixLen(a) - net.prefixLen)
  {
    hide AgreeFrom, Shr, FromBE;
    if net.addr.V4? == a.V4? {
      ShrEqual(FromBE(Octets(net.addr)), FromBE(Octets(a)), MaxPrefixLen(a) - net.prefixLen);
    }
  }

  /** A host route contains its own address and no other. */
  lemma HostRouteIsExact(own: IpAddr, a: IpAddr)
    ensures Contains(IpNet(own, MaxPrefixLen(own)), a) <==> a == own
  {
    if Contains(IpNet(own, MaxPrefixLen(own)), a) {
      FromBERoundTrip(Octets(own));
      FromBERoundTrip(Octets(a));
    }
  }
}
