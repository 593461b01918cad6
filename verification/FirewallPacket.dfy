/** The firewall's view of a packet: the key of its connection table. */
module FirewallPacket {
  import opened Bits
  import opened Net

  datatype Protocol = Any | Tcp | Udp | Icmp | IcmpV6 | Other(number: u8)

  datatype Packet = Packet(
    localAddr: IpAddr,
    remoteAddr: IpAddr,
    localPort: u16,
    remotePort: u16,
    protocol: Protocol,
    fragment: bool)

  function ProtocolFrom(v: u8): Protocol {
    if v == 0 then Any
    else if v == 6 then Tcp
    else if v == 17 then Udp
    else if v == 1 then Icmp
    else if v == 58 then IcmpV6
    else Other(v)
  }
}
