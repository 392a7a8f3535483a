/**
 * What the classifier promises, stated on the bytes of the frame and the
 * answers of the socket helpers.
 */
module TproxyTcProperties {
  import opened Wrappers
  import opened ByteOrder
  import opened Exemption
  import opened SocketHelpers
  import opened TproxyTc

  /** The outcome that leaves the packet alone: continue, mark unchanged, no helper called. */
  function Untouched(): Outcome
  {
    Outcome(TcActOk, false, [])
  }

  /** An Ethernet frame whose EtherType is IPv4 (0x08 0x00) with room for a 20-byte IP header. */
  predicate Ipv4Frame(frame: seq<bv8>)
  {
    |frame| >= EthHeaderLen + IpHeaderLen && frame[12] == 0x08 && frame[13] == 0x00
  }

  /** The destination address (bytes 30 to 33) is in an exempt range. */
  predicate ExemptDest(frame: seq<bv8>)
    requires |frame| >= EthHeaderLen + IpHeaderLen
  {
    ExemptOctets(frame[30], frame[31], frame[32], frame[33])
  }

  /** The IP protocol byte (byte 9 of the IP header). */
  function Protocol(frame: seq<bv8>): bv8
    requires |frame| >= EthHeaderLen + IpHeaderLen
  {
    frame[EthHeaderLen + 9]
  }

  /** The transport header of the frame's protocol, at its offset, lies within the frame. */
  predicate TransportFits(frame: seq<bv8>)
    requires |frame| >= EthHeaderLen + IpHeaderLen
  {
    || (Protocol(frame) == IpProtoTcp && TransportOffset(frame) + TcpHeaderLen <= |frame|)
    || (Protocol(frame) == IpProtoUdp && TransportOffset(frame) + UdpHeaderLen <= |frame|)
  }

  /** The two bytes of the destination port are hi, lo (port 256 * hi + lo). */
  predicate PortBytes(frame: seq<bv8>, hi: bv8, lo: bv8)
    requires |frame| > EthHeaderLen
  {
    var off := TransportOffset(frame);
    off + 4 <= |frame| && frame[off + 2] == hi && frame[off + 3] == lo
  }

  /** The frames the classifier drops: non-exempt IPv4 UDP to port 443 (0x01 0xBB). */
  predicate DroppedFrame(frame: seq<bv8>)
  {
    && Ipv4Frame(frame)
    && !ExemptDest(frame)
    && Protocol(frame) == IpProtoUdp
    && TransportFits(frame)
    && PortBytes(frame, 0x01, 0xBB)
  }

  /** The frames the classifier tries to divert: non-exempt IPv4 TCP or UDP, not to port 9277, not UDP to 443. */
  predicate DivertedFrame(frame: seq<bv8>)
  {
    && Ipv4Frame(frame)
    && !ExemptDest(frame)
    && TransportFits(frame)
    && !PortBytes(frame, 0x24, 0x3D)
    && !(Protocol(frame) == IpProtoUdp && PortBytes(frame, 0x01, 0xBB))
  }

  lemma EthernetIpv4(frame: seq<bv8>)
    requires |frame| >= EthHeaderLen
    ensures Be16(frame[12], frame[13]) == EthPIp <==> frame[12] == 0x08 && frame[13] == 0x00
  {
    Be16Injective(frame[12], frame[13], 0x08, 0x00);
  }

  lemma DestAddrOctets(frame: seq<bv8>)
    requires |frame| >= EthHeaderLen + IpHeaderLen
    ensures InAnyNetwork(DestAddr(frame), ExemptNetworks) <==> ExemptDest(frame)
  {
    TableOctets(frame[30], frame[31], frame[32], frame[33]);
  }

  lemma PortValue(frame: seq<bv8>, hi: bv8, lo: bv8)
    requires |frame| > EthHeaderLen && TransportOffset(frame) + 4 <= |frame|
    ensures Be16(frame[TransportOffset(frame) + 2], frame[TransportOffset(frame) + 3]) == Be16(hi, lo)
      <==> PortBytes(frame, hi, lo)
  {
    var off := TransportOffset(frame);
    Be16Injective(frame[off + 2], frame[off + 3], hi, lo);
  }

  /** A frame too short for an Ethernet header, or not carrying IPv4, is left alone. */
  lemma NonIpv4FramePasses(frame: seq<bv8>, table: SocketTable)
    requires |frame| < EthHeaderLen || frame[12] != 0x08 || frame[13] != 0x00
    ensures Expected(frame, table) == Untouched()
  {
    if |frame| >= EthHeaderLen {
      EthernetIpv4(frame);
    }
  }

  /** An IPv4 frame too short for a 20-byte IP header is left alone. */
  lemma ShortIpv4FramePasses(frame: seq<bv8>, table: SocketTable)
    requires |frame| < EthHeaderLen + IpHeaderLen
    ensures Expected(frame, table) == Untouched()
  {
  }

  /** A frame to an exempt destination is left alone, whatever its protocol and port. */
  lemma ExemptDestinationPasses(frame: seq<bv8>, table: SocketTable)
    requires |frame| >= EthHeaderLen + IpHeaderLen && ExemptDest(frame)
    ensures Expected(frame, table) == Untouched()
  {
    DestAddrOctets(frame);
  }

  /** An IP protocol other than TCP and UDP is left alone. */
  lemma OtherProtocolPasses(frame: seq<bv8>, table: SocketTable)
    requires |frame| >= EthHeaderLen + IpHeaderLen
    requires Protocol(frame) != IpProtoTcp && Protocol(frame) != IpProtoUdp
    ensures Expected(frame, table) == Untouched()
  {
  }

  /**
   * A TCP or UDP header that does not fit after IHL 32-bit words of IP header
   * (IHL anything from 0 to 15) is not read: the frame is left alone.
   */
  lemma TruncatedTransportPasses(frame: seq<bv8>, table: SocketTable)
    requires |frame| >= EthHeaderLen + IpHeaderLen
    requires Protocol(frame) == IpProtoTcp || Protocol(frame) == IpProtoUdp
    requires !TransportFits(frame)
    ensures Expected(frame, table) == Untouched()
  {
  }

  /** TCP or UDP to port 9277 (0x24 0x3D) is left alone, whatever the destination. */
  lemma DockerPortPasses(frame: seq<bv8>, table: SocketTable)
    requires |frame| >= EthHeaderLen + IpHeaderLen
    requires Protocol(frame) == IpProtoTcp || Protocol(frame) == IpProtoUdp
    requires PortBytes(frame, 0x24, 0x3D)
    ensures Expected(frame, table) == Untouched()
  {
    PortValue(frame, 0x24, 0x3D);
  }

  /** Only the port rule decides among frames that reach it: the three cases by the port bytes. */
  lemma PortRuleBytes(frame: seq<bv8>, p: L4)
    requires |frame| > EthHeaderLen && TransportOffset(frame) + 4 <= |frame|
    ensures var off := TransportOffset(frame);
      var r := PortRule(p, Be16(frame[off + 2], frame[off + 3]));
      && (r == Pass <==> PortBytes(frame, 0x24, 0x3D))
      && (r == Drop <==> p == Udp && PortBytes(frame, 0x01, 0xBB))
      && (r.Redirect? ==> r.proto == p)
  {
    PortValue(frame, 0x01, 0xBB);
    PortValue(frame, 0x24, 0x3D);
  }

  /** The frames that reach the transport rule: non-exempt IPv4 TCP or UDP. */
  lemma ReachesTransportRule(frame: seq<bv8>)
    ensures Ipv4Frame(frame) && !ExemptDest(frame)
        && (Protocol(frame) == IpProtoTcp || Protocol(frame) == IpProtoUdp)
      ==> Dispose(frame) == TransportRule(frame, if Protocol(frame) == IpProtoTcp then Tcp else Udp)
    ensures !(Ipv4Frame(frame) && !ExemptDest(frame)
        && (Protocol(frame) == IpProtoTcp || Protocol(frame) == IpProtoUdp))
      ==> Dispose(frame) == Pass
  {
    if |frame| >= EthHeaderLen {
      EthernetIpv4(frame);
    }
    if |frame| >= EthHeaderLen + IpHeaderLen {
      DestAddrOctets(frame);
    }
  }

  /** The disposition is Drop exactly for the non-exempt UDP frames to port 443. */
  lemma DropExactly(frame: seq<bv8>)
    ensures Dispose(frame) == Drop <==> DroppedFrame(frame)
  {
    ReachesTransportRule(frame);
    if |frame| > EthHeaderLen && TransportOffset(frame) + 4 <= |frame| {
      PortRuleBytes(frame, Tcp);
      PortRuleBytes(frame, Udp);
    }
  }

  /** The disposition is Redirect exactly for the frames to divert, with the frame's own protocol. */
  lemma RedirectExactly(frame: seq<bv8>)
    ensures Dispose(frame).Redirect? <==> DivertedFrame(frame)
    ensures Dispose(frame).Redirect? ==>
      Dispose(frame).proto == if Protocol(frame) == IpProtoTcp then Tcp else Udp
  {
    ReachesTransportRule(frame);
    if |frame| > EthHeaderLen && TransportOffset(frame) + 4 <= |frame| {
      PortRuleBytes(frame, Tcp);
      PortRuleBytes(frame, Udp);
    }
  }

  /**
   * The classifier drops exactly the non-exempt UDP frames to port 443, and
   * a drop touches nothing else; TCP is never dropped.
   */
  lemma ShotExactlyForUdp443(frame: seq<bv8>, table: SocketTable)
    ensures Expected(frame, table).verdict == TcActShot <==> DroppedFrame(frame)
    ensures Expected(frame, table).verdict == TcActShot ==> !Expected(frame, table).markSet && Expected(frame, table).calls == []
    ensures |frame| >= EthHeaderLen + IpHeaderLen && Protocol(frame) == IpProtoTcp ==> Expected(frame, table).verdict == TcActOk
  {
    DropExactly(frame);
  }

  /**
   * A helper is called exactly for the frames to divert, and then the first
   * call is a lookup of the listener (wildcard address, port 9420) with the
   * frame's protocol.
   */
  lemma DivertedExactly(frame: seq<bv8>, table: SocketTable)
    ensures Expected(frame, table).calls != [] <==> DivertedFrame(frame)
    ensures DivertedFrame(frame) ==>
      Expected(frame, table).calls[0] ==
        if Protocol(frame) == IpProtoTcp then LookupTcp(ListenerTuple(), SockTupleIpv4Len, table.tcpListener)
        else LookupUdp(ListenerTuple(), SockTupleIpv4Len, table.udpListener)
  {
    RedirectExactly(frame);
  }

  /**
   * The mark is set exactly when the lookup returned a socket, that socket
   * was assigned and then released, and bpf_sk_assign returned 0; the
   * verdict is then continue.
   */
  lemma MarkSetExactlyOnAssign(frame: seq<bv8>, table: SocketTable)
    ensures var calls := Expected(frame, table).calls;
      Expected(frame, table).markSet <==>
        && |calls| == 3
        && (calls[0].LookupTcp? || calls[0].LookupUdp?)
        && calls[0].found.Some?
        && calls[1] == Assign(calls[0].found.value)
        && calls[2] == Release(calls[0].found.value)
        && table.assignResult == 0
    ensures Expected(frame, table).markSet <==>
      (exists i :: 0 <= i < |Expected(frame, table).calls| && Expected(frame, table).calls[i].Assign?)
      && table.assignResult == 0
    ensures Expected(frame, table).markSet ==> Expected(frame, table).verdict == TcActOk
  {
    var o := Expected(frame, table);
    if o.markSet {
      assert o.calls[1].Assign?;
    }
  }

  /**
   * Only a socket the lookup returned is ever assigned or released, and
   * only after that lookup.
   */
  lemma AssignAndReleaseUseFoundSocket(frame: seq<bv8>, table: SocketTable)
    ensures var calls := Expected(frame, table).calls;
      forall i :: 0 <= i < |calls| && (calls[i].Assign? || calls[i].Release?) ==>
        0 < i && (calls[0].LookupTcp? || calls[0].LookupUdp?) && calls[0].found == Some(calls[i].sk)
  {
    var d := Dispose(frame);
    if d.Redirect? {
      assert Expected(frame, table) == DivertOutcome(d.proto, table);
      DivertUsesFoundSocket(d.proto, table);
    } else {
      assert Expected(frame, table).calls == [];
    }
  }

  lemma DivertUsesFoundSocket(p: L4, table: SocketTable)
    ensures var calls := DivertOutcome(p, table).calls;
      forall i :: 0 <= i < |calls| && (calls[i].Assign? || calls[i].Release?) ==>
        0 < i && (calls[0].LookupTcp? || calls[0].LookupUdp?) && calls[0].found == Some(calls[i].sk)
  {
  }

  /** Every socket a lookup hands out is released exactly once, and there is at most one lookup. */
  lemma FoundSocketReleasedOnce(frame: seq<bv8>, table: SocketTable)
    ensures Released(Expected(frame, table).calls) == Acquired(Expected(frame, table).calls)
    ensures Lookups(Expected(frame, table).calls) <= 1
  {
    var calls := Expected(frame, table).calls;
    if calls != [] {
      if |calls| == 3 {
        LookupAssignRelease(calls[0], calls[1].sk);
      } else {
        LookupNotFound(calls[0]);
      }
    }
  }
}
