/**
 * tproxy_tc_handler: the traffic-control classifier that sends IPv4 TCP and
 * UDP traffic to a local transparent-proxy listener on port 9420.
 *
 * The packet is a byte sequence (the bytes from skb->data to skb->data_end)
 * and a mark the classifier may set. Dispose states, layer by layer, what the
 * classifier decides for a frame; Expected adds what the socket helpers answer;
 * TproxyTcHandler is the classifier itself, step by step, proved to agree.
 */
module TproxyTc {
  import opened Wrappers
  import opened ByteOrder
  import opened Exemption
  import opened SocketHelpers

  /** Port of the transparent-proxy listener (TPROXY_PORT). */
  const TproxyPort: bv16 := 9420
  /** Mark put on packets assigned to the listener (TPROXY_MARK). */
  const TproxyMark: bv32 := 0x2333
  /** Port of a co-located service that is never diverted (DOCKER_PORT). */
  const DockerPort: bv16 := 9277
  /** UDP traffic to this port (QUIC, HTTP/3) is dropped. */
  const UdpDropPort: bv16 := 443

  const EthPIp: bv16 := 0x0800
  const IpProtoTcp: bv8 := 6
  const IpProtoUdp: bv8 := 17

  /** sizeof(struct ethhdr), sizeof(struct iphdr), sizeof(struct tcphdr), sizeof(struct udphdr). */
  const EthHeaderLen: nat := 14
  const IpHeaderLen: nat := 20
  const TcpHeaderLen: nat := 20
  const UdpHeaderLen: nat := 8
  /** sizeof(tuple.ipv4): two addresses and two ports. */
  const SockTupleIpv4Len: nat := 12

  /** The classifier's verdicts: TC_ACT_OK (continue) and TC_ACT_SHOT (drop). */
  datatype TcAction = TcActOk | TcActShot

  datatype L4 = Tcp | Udp

  /** What the classifier decides for a frame before it asks the kernel anything. */
  datatype Disposition = Pass | Drop | Redirect(proto: L4)

  /** The packet (struct __sk_buff): its bytes and its mark. */
  class SkBuff {
    const data: seq<bv8>
    var mark: bv32

    constructor (data: seq<bv8>, mark: bv32)
      ensures this.data == data && this.mark == mark
    {
      this.data := data;
      this.mark := mark;
    }
  }

  function L4Of(protocol: bv8): Option<L4>
  {
    if protocol == IpProtoTcp then Some(Tcp)
    else if protocol == IpProtoUdp then Some(Udp)
    else None
  }

  function TransportHeaderLen(p: L4): nat
  {
    if p == Tcp then TcpHeaderLen else UdpHeaderLen
  }

  /**
   * Where the transport header starts: after the Ethernet header and IHL
   * 32-bit words of IP header, IHL being the low nibble of the first IP byte.
   * Nothing requires IHL >= 5, so for small IHL this lies inside the IP header.
   */
  function TransportOffset(frame: seq<bv8>): (off: nat)
    requires |frame| > EthHeaderLen
    ensures EthHeaderLen <= off <= EthHeaderLen + 60
  {
    EthHeaderLen + IpHeaderBytes(frame[EthHeaderLen])
  }

  /** ihl * 4: the IP header length in bytes given by the first byte of the IP header. */
  function IpHeaderBytes(first: bv8): (n: nat)
    ensures n <= 60 && n % 4 == 0
  {
    (first & 0x0F) as nat * 4
  }

  /**
   * The destination address of an IPv4 frame, bytes 16 to 19 of the IP
   * header, as stored: is_exempt then decides on frame bytes 30 to 33.
   */
  function DestAddr(frame: seq<bv8>): (r: Be32)
    requires |frame| >= EthHeaderLen + IpHeaderLen
    ensures IsExempt(r) <==> ExemptOctets(frame[30], frame[31], frame[32], frame[33])
  {
    Be32(frame[30], frame[31], frame[32], frame[33])
  }

  /**
   * The decision for a frame: fail open (Pass) whenever a header does not fit
   * or the packet is none of the classifier's business; for TCP and UDP the
   * transport rules decide.
   */
  function Dispose(frame: seq<bv8>): (r: Disposition)
    ensures r != Pass ==>
      && |frame| >= EthHeaderLen + IpHeaderLen
      && Be16(frame[12], frame[13]) == EthPIp
      && !InAnyNetwork(DestAddr(frame), ExemptNetworks)
      && L4Of(frame[EthHeaderLen + 9]).Some?
    ensures r == Drop ==> frame[EthHeaderLen + 9] == IpProtoUdp
    ensures r.Redirect? ==> L4Of(frame[EthHeaderLen + 9]) == Some(r.proto)
  {
    if |frame| < EthHeaderLen || Be16(frame[12], frame[13]) != EthPIp then Pass
    else if |frame| < EthHeaderLen + IpHeaderLen then Pass
    else if InAnyNetwork(DestAddr(frame), ExemptNetworks) then Pass
    else match L4Of(frame[EthHeaderLen + 9])
      case None => Pass
      case Some(p) => TransportRule(frame, p)
  }

  /** The transport header must fit; then its destination port decides. */
  function TransportRule(frame: seq<bv8>, p: L4): (r: Disposition)
    requires |frame| > EthHeaderLen
    ensures r != Pass ==> TransportOffset(frame) + TransportHeaderLen(p) <= |frame|
    ensures r == Drop ==> p == Udp
    ensures r.Redirect? ==> r.proto == p
  {
    var off := TransportOffset(frame);
    if off + TransportHeaderLen(p) > |frame| then Pass
    else PortRule(p, Be16(frame[off + 2], frame[off + 3]))
  }

  /** The service port passes, UDP to port 443 is dropped, the rest is diverted. */
  function PortRule(p: L4, dport: bv16): (r: Disposition)
    ensures r == Pass <==> dport == DockerPort
    ensures r == Drop <==> p == Udp && dport == UdpDropPort
    ensures r.Redirect? ==> r.proto == p
  {
    if dport == DockerPort then Pass
    else if p == Udp && dport == UdpDropPort then Drop
    else Redirect(p)
  }

  /** The lookup key: the wildcard address and the proxy port. */
  function ListenerTuple(): SockTuple
  {
    SockTuple(Be32(0, 0, 0, 0), TproxyPort)
  }

  /** The verdict, whether the mark is set, and the helper calls made, for one packet. */
  datatype Outcome = Outcome(verdict: TcAction, markSet: bool, calls: seq<Call>)

  function Expected(frame: seq<bv8>, table: SocketTable): (r: Outcome)
    ensures r.verdict == TcActShot <==> Dispose(frame) == Drop
    ensures r.calls != [] <==> Dispose(frame).Redirect?
    ensures r.markSet ==> r.verdict == TcActOk && table.assignResult == 0
  {
    match Dispose(frame)
    case Pass => Outcome(TcActOk, false, [])
    case Drop => Outcome(TcActShot, false, [])
    case Redirect(p) => DivertOutcome(p, table)
  }

  /**
   * Diverting to the listener: look it up with the protocol's helper; when a
   * socket comes back, assign it and release it, and the mark is set when
   * the assignment succeeded.
   */
  function DivertOutcome(p: L4, table: SocketTable): (r: Outcome)
    ensures r.verdict == TcActOk && r.calls != []
    ensures r.markSet ==> table.assignResult == 0
  {
    var found := if p == Tcp then table.tcpListener else table.udpListener;
    var lookup :=
      if p == Tcp then LookupTcp(ListenerTuple(), SockTupleIpv4Len, found)
      else LookupUdp(ListenerTuple(), SockTupleIpv4Len, found);
    match found
    case None => Outcome(TcActOk, false, [lookup])
    case Some(sk) => Outcome(TcActOk, table.assignResult == 0, [lookup, Assign(sk), Release(sk)])
  }

  /**
   * The classifier. It reads only bytes inside skb.data, returns the verdict
   * of Expected, sets the mark exactly when Expected says so and leaves it
   * alone otherwise, and makes exactly the helper calls Expected lists.
   */
  method TproxyTcHandler(skb: SkBuff, kernel: Kernel) returns (verdict: TcAction)
    modifies skb, kernel
    ensures verdict == Expected(skb.data, kernel.table).verdict
    ensures skb.mark == if Expected(skb.data, kernel.table).markSet then TproxyMark else old(skb.mark)
    ensures kernel.log == old(kernel.log) + Expected(skb.data, kernel.table).calls
  {
    ghost var frame := skb.data;
    var dataEnd := |skb.data|;
    var eth := 0;
    if eth + EthHeaderLen > dataEnd {
      assert Dispose(frame) == Pass;
      return TcActOk;
    }
    // h_proto against htons(ETH_P_IP); ntohs is one-to-one, so the host values are compared
    var ethProto := Be16(skb.data[eth + 12], skb.data[eth + 13]);
    assert ethProto == Be16(frame[12], frame[13]);
    if ethProto != EthPIp {
      assert Dispose(frame) == Pass;
      return TcActOk;
    }

    var ip := eth + EthHeaderLen;
    if ip + IpHeaderLen > dataEnd {
      assert Dispose(frame) == Pass;
      return TcActOk;
    }

    var daddr := Be32(skb.data[ip + 16], skb.data[ip + 17], skb.data[ip + 18], skb.data[ip + 19]);
    assert daddr == DestAddr(frame);
    IsExemptMatchesTable(daddr);
    if IsExempt(daddr) {
      assert Dispose(frame) == Pass;
      return TcActOk;
    }

    var ipProto := skb.data[ip + 9];
    if ipProto == IpProtoTcp {
      verdict := HandleTcp(skb, kernel, ip);
      return;
    } else if ipProto == IpProtoUdp {
      verdict := HandleUdp(skb, kernel, ip);
      return;
    }
    assert L4Of(frame[EthHeaderLen + 9]) == None;
    assert Dispose(frame) == Pass;
    return TcActOk;
  }

  /** The IPv4 frames, not exempt, whose IP protocol is proto: the ones the TCP or UDP branch sees. */
  ghost predicate ReachesTransport(frame: seq<bv8>, proto: bv8)
  {
    && |frame| >= EthHeaderLen + IpHeaderLen
    && Be16(frame[12], frame[13]) == EthPIp
    && !InAnyNetwork(DestAddr(frame), ExemptNetworks)
    && frame[EthHeaderLen + 9] == proto
  }

  /** For a frame that reaches a transport branch, the transport rule decides. */
  lemma TransportDecides(frame: seq<bv8>, proto: bv8, p: L4)
    requires ReachesTransport(frame, proto) && L4Of(proto) == Some(p)
    ensures Dispose(frame) == TransportRule(frame, p)
  {
  }

  /** The TCP branch of the classifier; ip is the offset of the IP header. */
  method HandleTcp(skb: SkBuff, kernel: Kernel, ip: nat) returns (verdict: TcAction)
    requires ip == EthHeaderLen && ReachesTransport(skb.data, IpProtoTcp)
    modifies skb, kernel
    ensures verdict == Expected(skb.data, kernel.table).verdict
    ensures skb.mark == if Expected(skb.data, kernel.table).markSet then TproxyMark else old(skb.mark)
    ensures kernel.log == old(kernel.log) + Expected(skb.data, kernel.table).calls
  {
    ghost var frame := skb.data;
    var dataEnd := |skb.data|;
    TransportDecides(frame, IpProtoTcp, Tcp);
    var ipHlen := IpHeaderBytes(skb.data[ip]);
    var tcp := ip + ipHlen;
    assert tcp == TransportOffset(frame);
    if tcp + TcpHeaderLen > dataEnd {
      assert Dispose(frame) == Pass;
      return TcActOk;
    }
    var dport := Be16(skb.data[tcp + 2], skb.data[tcp + 3]);
    assert Dispose(frame) == PortRule(Tcp, dport);
    if dport == DockerPort {
      assert Dispose(frame) == Pass;
      return TcActOk;
    }
    assert Dispose(frame) == Redirect(Tcp);
    assert Expected(frame, kernel.table) == DivertOutcome(Tcp, kernel.table);
    verdict := Divert(skb, kernel, Tcp);
  }

  /** The UDP branch of the classifier; ip is the offset of the IP header. */
  method HandleUdp(skb: SkBuff, kernel: Kernel, ip: nat) returns (verdict: TcAction)
    requires ip == EthHeaderLen && ReachesTransport(skb.data, IpProtoUdp)
    modifies skb, kernel
    ensures verdict == Expected(skb.data, kernel.table).verdict
    ensures skb.mark == if Expected(skb.data, kernel.table).markSet then TproxyMark else old(skb.mark)
    ensures kernel.log == old(kernel.log) + Expected(skb.data, kernel.table).calls
  {
    ghost var frame := skb.data;
    var dataEnd := |skb.data|;
    TransportDecides(frame, IpProtoUdp, Udp);
    var ipHlen := IpHeaderBytes(skb.data[ip]);
    var udp := ip + ipHlen;
    assert udp == TransportOffset(frame);
    if udp + UdpHeaderLen > dataEnd {
      assert Dispose(frame) == Pass;
      return TcActOk;
    }
    var dport := Be16(skb.data[udp + 2], skb.data[udp + 3]);
    assert Dispose(frame) == PortRule(Udp, dport);
    if dport == DockerPort {
      assert Dispose(frame) == Pass;
      return TcActOk;
    }
    if dport == UdpDropPort {
      assert Dispose(frame) == Drop;
      return TcActShot;
    }
    assert Dispose(frame) == Redirect(Udp);
    assert Expected(frame, kernel.table) == DivertOutcome(Udp, kernel.table);
    verdict := Divert(skb, kernel, Udp);
  }

  /**
   * The tail shared by the TCP and UDP branches: look up the listener with
   * the protocol's helper, keyed by the listener tuple and the size of an
   * IPv4 tuple; when a socket comes back, assign it, release it, and set the
   * mark when the assignment returned 0. The verdict is continue either way.
   */
  method Divert(skb: SkBuff, kernel: Kernel, p: L4) returns (verdict: TcAction)
    modifies skb, kernel
    ensures verdict == DivertOutcome(p, kernel.table).verdict
    ensures skb.mark == if DivertOutcome(p, kernel.table).markSet then TproxyMark else old(skb.mark)
    ensures kernel.log == old(kernel.log) + DivertOutcome(p, kernel.table).calls
  {
    var tupleLen := SockTupleIpv4Len;
    var listenerTuple := SockTuple(Be32(0, 0, 0, 0), TproxyPort);
    var sk;
    if p == Tcp {
      sk := kernel.SkcLookupTcp(listenerTuple, tupleLen);
    } else {
      sk := kernel.SkLookupUdp(listenerTuple, tupleLen);
    }
    if sk.Some? {
      var ret := kernel.SkAssign(sk.value);
      kernel.SkRelease(sk.value);
      if ret == 0 {
        skb.mark := TproxyMark;
        return TcActOk;
      }
    }
    return TcActOk;
  }
}
