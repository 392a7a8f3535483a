# tproxy_tc: a verified model of mihomo's traffic-control classifier

`mihomo/tproxy_tc.bpf.c` is an eBPF classifier attached to a traffic-control
hook. For each IPv4 Ethernet frame it decides one of three things:

- leave the frame alone (`TC_ACT_OK`, mark unchanged);
- drop it (`TC_ACT_SHOT`, only for UDP to port 443);
- hand it to the local transparent-proxy listener on port 9420. This means
  looking up the listener socket, assigning it to the packet, releasing the
  reference, and setting the mark to `0x2333` when the assignment succeeds.

Destinations in 127/8, 10/8, 172.16/12, 192.168/16 and 255.255.255.255 are
exempt. So is port 9277. Every header that does not fit in the frame makes
the classifier fail open.

The project models this core:

- `byte_order.dfy` (module `ByteOrder`) models header fields as they sit in
  packet memory.
  - A 16-bit field read through `bpf_ntohs` is modelled by its host-order
    value, `Be16(hi, lo)`.
  - A `__be32` address is modelled by its four stored bytes, `Be32`.
  - The source's masked comparisons against `bpf_htonl` constants act on each
    stored byte alike. So the model compares byte by byte, and the answer does
    not depend on the host's byte order.
- `exemption.dfy` (module `Exemption`) holds `is_exempt` as written
  (`IsExempt`, which returns `bool` where the source returns 1 or 0). Beside it
  is a reference definition: a table of address blocks with prefix lengths
  (`ExemptNetworks`) scanned by `InAnyNetwork`. The module proves both equal to
  a statement on the four octets.
- `socket_helpers.dfy` (module `SocketHelpers`) models the kernel helpers
  `bpf_skc_lookup_tcp`, `bpf_sk_lookup_udp`, `bpf_sk_assign` and
  `bpf_sk_release` as a `Kernel` object.
  - Its answers come from a fixed `SocketTable`.
  - It records every call in its `log`.
- `tproxy_tc.dfy` (module `TproxyTc`) holds the constants, the packet
  (`SkBuff`: the bytes from `data` to `data_end` and a mutable `mark`), and a
  specification of the decision:
  - `Dispose` decides on the frame bytes alone, through `TransportRule` and
    `PortRule`.
  - `Expected` adds the helpers' answers: the verdict, whether the mark is set,
    and the helper calls made.
  - `TproxyTcHandler` is the classifier itself, step by step as in the source,
    with its TCP and UDP branches as `HandleTcp` and `HandleUdp`. The tail those two branches repeat in the source (look up, assign, release, mark) is written once, as `Divert`. It is proved
    to return the verdict of `Expected`, to set the mark exactly when
    `Expected` says so, and to make exactly the calls `Expected` lists. Every
    byte the model reads is proved to lie inside the frame.
- `properties.dfy` (module `TproxyTcProperties`) states the classifier's
  promises on raw frame bytes.
- `scenarios.dfy` (module `TproxyTcScenarios`) works through concrete frames.

Quirks of the source that the model keeps as written:

- The IHL field is not checked to be at least 5. The transport header is read
  at `14 + 4 * IHL`, which for IHL below 5 lies inside the IP header
  (`ZeroIhlReadsIpHeaderAsPorts`).
- The per-packet `tuple` is filled in, but only its size (12) reaches the
  lookup. The lookup key is always the listener tuple: wildcard address, port
  9420.

## Model

| member | source | states |
|---|---|---|
| ByteOrder.Be16 | mihomo/tproxy_tc.bpf.c:80 | the host-order value of a network-order 16-bit field has the first stored byte as its high byte and the second as its low byte |
| ByteOrder.Be16Injective | mihomo/tproxy_tc.bpf.c:80 | two 16-bit fields have the same host-order value exactly when their stored bytes are equal |
| Exemption.InAnyNetwork | mihomo/tproxy_tc.bpf.c:19-28 | the first-match scan of an address table is true exactly when some block of the table contains the address |
| Exemption.ExemptTableUnrolled | mihomo/tproxy_tc.bpf.c:19-28 | membership in the exempt table is exactly membership in one of its five blocks |
| Exemption.IsExempt | mihomo/tproxy_tc.bpf.c:18-31 | is_exempt's chain of masked comparisons on the stored address bytes; true exactly when the octets a.b.c.d have a = 127, or a = 10, or a = 172 and 16 <= b <= 31, or a = 192 and b = 168, or are all 255 |
| Exemption.IsExemptMatchesTable | mihomo/tproxy_tc.bpf.c:18-31 | is_exempt's five masked comparisons accept exactly the addresses in 127.0.0.0/8, 10.0.0.0/8, 172.16.0.0/12, 192.168.0.0/16 and 255.255.255.255/32 |
| Exemption.IsExemptOctets | mihomo/tproxy_tc.bpf.c:18-31 | is_exempt holds exactly when a = 127, or a = 10, or a = 172 and 16 <= b <= 31, or a = 192 and b = 168, or all four octets are 255 |
| Exemption.MaskFirstOctet | mihomo/tproxy_tc.bpf.c:20-22 | the test under mask 255.0.0.0 holds exactly when the first octet equals the network's |
| Exemption.MaskPrivate172 | mihomo/tproxy_tc.bpf.c:24 | the test under mask 255.240.0.0 against 172.16.0.0 holds exactly when a = 172 and 16 <= b <= 31 |
| Exemption.MaskPrivate192 | mihomo/tproxy_tc.bpf.c:26 | the test under mask 255.255.0.0 against 192.168.0.0 holds exactly when a = 192 and b = 168 |
| Exemption.TableOctets | mihomo/tproxy_tc.bpf.c:19-28 | the exempt table contains an address exactly when its octets satisfy the same characterization |
| SocketHelpers.LookupAssignRelease | mihomo/tproxy_tc.bpf.c:99-102 | a successful lookup followed by assign and release acquires and releases the same socket once, with one lookup |
| SocketHelpers.LookupNotFound | mihomo/tproxy_tc.bpf.c:99-100 | a lookup that finds nothing acquires nothing and releases nothing |
| SocketHelpers.Kernel.SkcLookupTcp | mihomo/tproxy_tc.bpf.c:99 | the TCP lookup answers the table's TCP listener and logs the call with its key and key length |
| SocketHelpers.Kernel.SkLookupUdp | mihomo/tproxy_tc.bpf.c:141 | the UDP lookup answers the table's UDP listener and logs the call with its key and key length |
| SocketHelpers.Kernel.SkAssign | mihomo/tproxy_tc.bpf.c:101 | the assignment answers the table's result and logs the call |
| SocketHelpers.Kernel.SkRelease | mihomo/tproxy_tc.bpf.c:102 | the release logs the call |
| TproxyTc.TransportOffset | mihomo/tproxy_tc.bpf.c:74-75 | the transport header starts 14 + 4 * IHL bytes into the frame: at least 14 and at most 74, whatever IHL is |
| TproxyTc.IpHeaderBytes | mihomo/tproxy_tc.bpf.c:74 | ihl * 4 is a multiple of 4 and at most 60 |
| TproxyTc.DestAddr | mihomo/tproxy_tc.bpf.c:66 | ip->daddr is frame bytes 30 to 33 as stored; is_exempt of it is decided by those four octets |
| TproxyTc.Dispose | mihomo/tproxy_tc.bpf.c:50-152 | the decision on the frame bytes alone; anything but pass needs a 34-byte IPv4 frame to a non-exempt address with protocol TCP or UDP; only UDP is dropped; a diversion uses the frame's own protocol |
| TproxyTc.TransportRule | mihomo/tproxy_tc.bpf.c:74-122 | a frame is only dropped or diverted when its TCP or UDP header fits at 14 + 4 * IHL; the decision keeps the protocol |
| TproxyTc.PortRule | mihomo/tproxy_tc.bpf.c:83-127 | pass exactly for port 9277, drop exactly for UDP to 443, otherwise divert with the given protocol |
| TproxyTc.Expected | mihomo/tproxy_tc.bpf.c:94-152 | the outcome with the helpers' answers: TC_ACT_SHOT exactly for a drop, helpers called exactly for a diversion, and a set mark only with verdict continue after bpf_sk_assign returned 0 |
| TproxyTc.DivertOutcome | mihomo/tproxy_tc.bpf.c:94-107 | diverting always continues and always calls a helper (the lookup), and sets the mark only when bpf_sk_assign returned 0 |
| TproxyTc.TransportDecides | mihomo/tproxy_tc.bpf.c:70-73 | a non-exempt IPv4 frame whose protocol byte is TCP or UDP is decided by that protocol's transport rule |
| TproxyTc.TproxyTcHandler | mihomo/tproxy_tc.bpf.c:34-153 | reads only bytes inside the frame, returns the verdict of the specification, sets the mark to 0x2333 exactly when the specification says so and leaves it unchanged otherwise, and makes exactly the helper calls the specification lists |
| TproxyTc.HandleTcp | mihomo/tproxy_tc.bpf.c:73-108 | the TCP branch, under the same three promises, for a non-exempt IPv4 TCP frame |
| TproxyTc.HandleUdp | mihomo/tproxy_tc.bpf.c:110-150 | the UDP branch, under the same three promises, for a non-exempt IPv4 UDP frame |
| TproxyTc.Divert | mihomo/tproxy_tc.bpf.c:94-107 | the lookup, assign, release and mark tail of the TCP branch (and of the UDP branch, lines 136-149): returns the verdict of the diversion outcome, sets the mark to 0x2333 exactly when that outcome says so and leaves it unchanged otherwise, and makes exactly its helper calls |
| TproxyTcProperties.EthernetIpv4 | mihomo/tproxy_tc.bpf.c:54-55 | the EtherType equals ETH_P_IP exactly when its stored bytes are 0x08 0x00 |
| TproxyTcProperties.DestAddrOctets | mihomo/tproxy_tc.bpf.c:66 | the destination address (frame bytes 30 to 33) is exempt exactly when its octets satisfy the exemption characterization |
| TproxyTcProperties.PortValue | mihomo/tproxy_tc.bpf.c:80 | the destination port has a given value exactly when its two stored bytes are that value's bytes |
| TproxyTcProperties.NonIpv4FramePasses | mihomo/tproxy_tc.bpf.c:50-57 | a frame shorter than 14 bytes, or whose EtherType bytes are not 0x08 0x00, gives continue, leaves the mark unchanged and calls no helper |
| TproxyTcProperties.ShortIpv4FramePasses | mihomo/tproxy_tc.bpf.c:60-63 | a frame shorter than 34 bytes is left alone |
| TproxyTcProperties.ExemptDestinationPasses | mihomo/tproxy_tc.bpf.c:66-68 | a frame to an exempt destination is left alone, whatever its protocol and port |
| TproxyTcProperties.OtherProtocolPasses | mihomo/tproxy_tc.bpf.c:70-152 | an IP protocol other than TCP (6) and UDP (17) is left alone |
| TproxyTcProperties.TruncatedTransportPasses | mihomo/tproxy_tc.bpf.c:74-115 | a TCP or UDP header that does not fit at 14 + 4 * IHL, for any IHL from 0 to 15, is left alone |
| TproxyTcProperties.DockerPortPasses | mihomo/tproxy_tc.bpf.c:80-122 | TCP or UDP to port 9277 is left alone, with no lookup |
| TproxyTcProperties.PortRuleBytes | mihomo/tproxy_tc.bpf.c:83-125 | on the port bytes: pass exactly for 9277, drop exactly for UDP to 443, otherwise divert with the frame's own protocol |
| TproxyTcProperties.ReachesTransportRule | mihomo/tproxy_tc.bpf.c:50-110 | only non-exempt IPv4 TCP or UDP frames reach the transport rules; every other frame is left alone |
| TproxyTcProperties.DropExactly | mihomo/tproxy_tc.bpf.c:125-127 | the decision is drop exactly for non-exempt IPv4 UDP frames whose header fits and whose port bytes are 0x01 0xBB |
| TproxyTcProperties.RedirectExactly | mihomo/tproxy_tc.bpf.c:87-141 | the decision is divert exactly for non-exempt IPv4 TCP or UDP frames whose header fits, not to port 9277 and not UDP to 443; the diverted protocol is the frame's |
| TproxyTcProperties.ShotExactlyForUdp443 | mihomo/tproxy_tc.bpf.c:125-152 | TC_ACT_SHOT is returned exactly for the dropped frames; a drop sets no mark and calls no helper; TCP is never dropped |
| TproxyTcProperties.DivertedExactly | mihomo/tproxy_tc.bpf.c:94-141 | helpers are called exactly for the frames to divert, and the first call is a lookup with the frame's protocol, the listener key (address 0, port 9420) and key length 12 |
| TproxyTcProperties.MarkSetExactlyOnAssign | mihomo/tproxy_tc.bpf.c:99-149 | the mark is set exactly when the lookup returned a socket, that same socket was assigned and then released, and bpf_sk_assign returned 0; the verdict is then continue |
| TproxyTcProperties.AssignAndReleaseUseFoundSocket | mihomo/tproxy_tc.bpf.c:99-102 | every socket assigned or released is the one the preceding lookup returned |
| TproxyTcProperties.DivertUsesFoundSocket | mihomo/tproxy_tc.bpf.c:99-102 | within a diversion, every socket assigned or released is the one the first call, a lookup, returned |
| TproxyTcProperties.FoundSocketReleasedOnce | mihomo/tproxy_tc.bpf.c:99-144 | every socket a lookup returns is released exactly once, and there is at most one lookup per packet |
| TproxyTcScenarios.PlainPacket | mihomo/tproxy_tc.bpf.c:50-83 | a TCP or UDP frame with IHL 5 to a non-exempt address clears every header check, and the port rule alone decides it |
| TproxyTcScenarios.TcpHttpsIsRedirected | mihomo/tproxy_tc.bpf.c:99-105 | TCP to 8.8.8.8:443 with a listener and a successful assign is marked and continues, after lookup, assign and release |
| TproxyTcScenarios.FailedAssignLeavesMark | mihomo/tproxy_tc.bpf.c:100-152 | when bpf_sk_assign fails, the mark is left unchanged, the socket is still released and the verdict is continue |
| TproxyTcScenarios.QuicIsDropped | mihomo/tproxy_tc.bpf.c:125-127 | UDP to 8.8.8.8:443 is dropped without any lookup |
| TproxyTcScenarios.UdpWithoutListenerPasses | mihomo/tproxy_tc.bpf.c:141-152 | UDP to 8.8.8.8:53 with no UDP listener continues after one lookup |
| TproxyTcScenarios.LanIsLeftAlone | mihomo/tproxy_tc.bpf.c:66-68 | TCP to 192.168.1.5:80 is left alone |
| TproxyTcScenarios.Outside172PrivateIsDiverted | mihomo/tproxy_tc.bpf.c:24 | 172.32.0.1 lies outside 172.16.0.0/12, so TCP to it on port 80 is decided Redirect(Tcp) and the helpers are called |
| TproxyTcScenarios.DockerPortIsLeftAlone | mihomo/tproxy_tc.bpf.c:83-85 | TCP to 1.2.3.4:9277 is left alone |
| TproxyTcScenarios.ArpIsLeftAlone | mihomo/tproxy_tc.bpf.c:54-57 | a frame with EtherType 0x0806 (ARP) is left alone |
| TproxyTcScenarios.ZeroIhlPacket | mihomo/tproxy_tc.bpf.c:74-80 | with IHL 0 a TCP frame's destination port is read from IP header bytes 2 and 3 (the total length, 40), whatever its real port |
| TproxyTcScenarios.ZeroIhlReadsIpHeaderAsPorts | mihomo/tproxy_tc.bpf.c:74-80 | with IHL 5, TCP to port 9277 is left alone; with IHL 0, the same frame's port is read from the IP header and the frame is diverted |

## Left out

- The kernel side of the socket helpers is not modelled. Their answers are parameters: the lookup results and the return code of `bpf_sk_assign`, in `SocketTable`. The namespace and flag arguments (`BPF_F_CURRENT_NETNS`, 0) are not recorded.
- The per-packet `struct bpf_sock_tuple tuple` is not modelled (source addresses, ports). The source never passes it to a helper; only its size, 12, reaches the lookup.
- The `SEC("classifier")` and `SEC("license")` annotations are not modelled. Neither is the eBPF verifier's own bounds checking. The model instead proves that every read it performs lies between `data` and `data_end`; the reads of source addresses and ports for the unused `tuple` are not modelled.
- The mark-and-redirect variant of the classifier is not part of this model. IPv6 is not handled by the source, which lets it pass as a non-IPv4 frame.
- Each packet is classified on its own; no state persists between packets.
- Host byte order is not a parameter. A `__be32` address is its stored bytes, on which the masked comparisons give the same answer on any host. A 16-bit port or EtherType is its `bpf_ntohs` value.
- `__u32` mark widths and the `long` return of `bpf_sk_assign` are modelled as `bv32` and unbounded `int`; only "is 0" is ever asked of the latter.
