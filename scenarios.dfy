/** Concrete frames and what the classifier does with them. */
module TproxyTcScenarios {
  import opened Wrappers
  import opened ByteOrder
  import opened Exemption
  import opened SocketHelpers
  import opened TproxyTc
  import opened TproxyTcProperties

  /**
   * A 54-byte frame: an Ethernet header with the given EtherType, an IP
   * header whose first byte is versionIhl (0x45 for a plain 20-byte header),
   * total length 40, the given protocol, source 10.0.0.1 and destination
   * dst, then 20 bytes of transport header with source port 12345 and
   * destination port 256 * portHi + portLo.
   */
  function Packet(etherType: bv16, versionIhl: bv8, protocol: bv8, dst: Be32, portHi: bv8, portLo: bv8): (frame: seq<bv8>)
    ensures |frame| == 54
    ensures Be16(frame[12], frame[13]) == etherType
    ensures frame[EthHeaderLen + 9] == protocol && DestAddr(frame) == Be32(dst.b0, dst.b1, dst.b2, dst.b3)
  {
    var eth: seq<bv8> := [0, 0, 0, 0, 0, 0, 0, 0, 0, 0, 0, 0, (etherType >> 8) as bv8, (etherType & 0xFF) as bv8];
    var ip: seq<bv8> := [versionIhl, 0, 0, 40, 0, 0, 0, 0, 64, protocol, 0, 0, 10, 0, 0, 1, dst.b0, dst.b1, dst.b2, dst.b3];
    var l4: seq<bv8> := [0x30, 0x39, portHi, portLo] + seq(16, _ => 0);
    eth + ip + l4
  }

  /** A well-formed TCP or UDP packet to a non-exempt address is decided by its port alone. */
  lemma PlainPacket(protocol: bv8, dst: Be32, portHi: bv8, portLo: bv8)
    requires protocol == IpProtoTcp || protocol == IpProtoUdp
    requires !ExemptOctets(dst.b0, dst.b1, dst.b2, dst.b3)
    ensures Dispose(Packet(EthPIp, 0x45, protocol, dst, portHi, portLo))
      == PortRule(if protocol == IpProtoTcp then Tcp else Udp, Be16(portHi, portLo))
  {
    var frame := Packet(EthPIp, 0x45, protocol, dst, portHi, portLo);
    TableOctets(dst.b0, dst.b1, dst.b2, dst.b3);
    assert TransportOffset(frame) == 34;
    assert frame[36] == portHi && frame[37] == portLo;
  }

  /** TCP to 8.8.8.8:443 with a listener and a successful assign: marked, continue, socket released. */
  lemma TcpHttpsIsRedirected(sk: Sock)
    ensures var frame := Packet(EthPIp, 0x45, IpProtoTcp, Be32(8, 8, 8, 8), 0x01, 0xBB);
      Expected(frame, SocketTable(Some(sk), None, 0)) ==
        Outcome(TcActOk, true, [LookupTcp(ListenerTuple(), SockTupleIpv4Len, Some(sk)), Assign(sk), Release(sk)])
  {
    PlainPacket(IpProtoTcp, Be32(8, 8, 8, 8), 0x01, 0xBB);
  }

  /** The same TCP frame when bpf_sk_assign fails: continue, mark untouched, socket still released. */
  lemma FailedAssignLeavesMark(sk: Sock, err: int)
    requires err != 0
    ensures var frame := Packet(EthPIp, 0x45, IpProtoTcp, Be32(8, 8, 8, 8), 0x01, 0xBB);
      Expected(frame, SocketTable(Some(sk), None, err)) ==
        Outcome(TcActOk, false, [LookupTcp(ListenerTuple(), SockTupleIpv4Len, Some(sk)), Assign(sk), Release(sk)])
  {
    PlainPacket(IpProtoTcp, Be32(8, 8, 8, 8), 0x01, 0xBB);
  }

  /** UDP to 8.8.8.8:443 (QUIC) is dropped without any lookup. */
  lemma QuicIsDropped(table: SocketTable)
    ensures Expected(Packet(EthPIp, 0x45, IpProtoUdp, Be32(8, 8, 8, 8), 0x01, 0xBB), table) ==
      Outcome(TcActShot, false, [])
  {
    PlainPacket(IpProtoUdp, Be32(8, 8, 8, 8), 0x01, 0xBB);
  }

  /** UDP to 8.8.8.8:53 with no UDP listener: continue after one lookup. */
  lemma UdpWithoutListenerPasses(table: SocketTable)
    requires table.udpListener == None
    ensures Expected(Packet(EthPIp, 0x45, IpProtoUdp, Be32(8, 8, 8, 8), 0x00, 0x35), table) ==
      Outcome(TcActOk, false, [LookupUdp(ListenerTuple(), SockTupleIpv4Len, None)])
  {
    PlainPacket(IpProtoUdp, Be32(8, 8, 8, 8), 0x00, 0x35);
  }

  /** TCP to 192.168.1.5:80 is on the LAN and left alone. */
  lemma LanIsLeftAlone(table: SocketTable)
    ensures Expected(Packet(EthPIp, 0x45, IpProtoTcp, Be32(192, 168, 1, 5), 0x00, 0x50), table) == Untouched()
  {
    TableOctets(192, 168, 1, 5);
  }

  /** 172.32.0.1 is outside 172.16.0.0/12, so TCP to it on port 80 is diverted. */
  lemma Outside172PrivateIsDiverted(table: SocketTable)
    ensures Dispose(Packet(EthPIp, 0x45, IpProtoTcp, Be32(172, 32, 0, 1), 0x00, 0x50)) == Redirect(Tcp)
    ensures Expected(Packet(EthPIp, 0x45, IpProtoTcp, Be32(172, 32, 0, 1), 0x00, 0x50), table).calls != []
  {
    PlainPacket(IpProtoTcp, Be32(172, 32, 0, 1), 0x00, 0x50);
  }

  /** TCP to 1.2.3.4:9277 is left alone. */
  lemma DockerPortIsLeftAlone(table: SocketTable)
    ensures Expected(Packet(EthPIp, 0x45, IpProtoTcp, Be32(1, 2, 3, 4), 0x24, 0x3D), table) == Untouched()
  {
    PlainPacket(IpProtoTcp, Be32(1, 2, 3, 4), 0x24, 0x3D);
  }

  /** An ARP frame (EtherType 0x0806) is left alone. */
  lemma ArpIsLeftAlone(table: SocketTable)
    ensures Expected(Packet(0x0806, 0x45, IpProtoTcp, Be32(8, 8, 8, 8), 0x01, 0xBB), table) == Untouched()
  {
  }

  /**
   * IHL is not checked to be at least 5. With IHL 0 the "TCP header" starts
   * at the IP header itself, so the destination port is read from the IP
   * total-length field (here 40): a frame whose real TCP destination port
   * is 9277 is then diverted instead of left alone.
   */
  lemma ZeroIhlReadsIpHeaderAsPorts(table: SocketTable)
    ensures Expected(Packet(EthPIp, 0x45, IpProtoTcp, Be32(8, 8, 8, 8), 0x24, 0x3D), table) == Untouched()
    ensures Dispose(Packet(EthPIp, 0x40, IpProtoTcp, Be32(8, 8, 8, 8), 0x24, 0x3D)) == Redirect(Tcp)
  {
    PlainPacket(IpProtoTcp, Be32(8, 8, 8, 8), 0x24, 0x3D);
    ZeroIhlPacket(Be32(8, 8, 8, 8), 0x24, 0x3D);
  }

  /** With IHL 0, a TCP packet's port is read from IP header bytes 2 and 3: the total length, 40. */
  lemma ZeroIhlPacket(dst: Be32, portHi: bv8, portLo: bv8)
    requires !ExemptOctets(dst.b0, dst.b1, dst.b2, dst.b3)
    ensures Dispose(Packet(EthPIp, 0x40, IpProtoTcp, dst, portHi, portLo)) == PortRule(Tcp, Be16(0, 40))
  {
    var frame := Packet(EthPIp, 0x40, IpProtoTcp, dst, portHi, portLo);
    TableOctets(dst.b0, dst.b1, dst.b2, dst.b3);
    assert TransportOffset(frame) == 14;
    assert frame[16] == 0 && frame[17] == 40;
  }
}
