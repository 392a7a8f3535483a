/**
 * is_exempt: the destination addresses the classifier never diverts. The
 * source tests five ranges with masked comparisons; the reference below
 * states the same ranges as address blocks with prefix lengths (private
 * networks of section 3 of RFC 1918, loopback and limited broadcast of
 * section 3.2.1.3 of RFC 1122), matched by a first-match scan.
 */
module Exemption {
  import opened ByteOrder

  /** An address block: a network address and a prefix length. */
  datatype Cidr = Cidr(net: Be32, prefixLen: nat)

  /** Byte k (0 = most significant) of the netmask with prefixLen leading ones. */
  function MaskByte(prefixLen: nat, k: nat): bv8
    requires prefixLen <= 32 && k < 4
  {
    if prefixLen >= 8 * (k + 1) then 0xFF
    else if prefixLen <= 8 * k then 0
    else !((0xFF as bv8) >> (prefixLen - 8 * k))
  }

  /** The netmask of a prefix length. */
  function PrefixMask(prefixLen: nat): Be32
    requires prefixLen <= 32
  {
    Be32(MaskByte(prefixLen, 0), MaskByte(prefixLen, 1), MaskByte(prefixLen, 2), MaskByte(prefixLen, 3))
  }

  /** addr lies in the block with network address net and the given prefix length. */
  predicate InNetwork(addr: Be32, net: Be32, prefixLen: nat)
    requires prefixLen <= 32
  {
    MaskedEquals(addr, PrefixMask(prefixLen), net)
  }

  ghost predicate WellFormed(nets: seq<Cidr>)
  {
    forall i :: 0 <= i < |nets| ==> nets[i].prefixLen <= 32
  }

  /** 127.0.0.0/8, 10.0.0.0/8, 172.16.0.0/12, 192.168.0.0/16 and 255.255.255.255/32. */
  const ExemptNetworks: seq<Cidr> := [
    Cidr(Be32(127, 0, 0, 0), 8),
    Cidr(Be32(10, 0, 0, 0), 8),
    Cidr(Be32(172, 16, 0, 0), 12),
    Cidr(Be32(192, 168, 0, 0), 16),
    Cidr(Be32(255, 255, 255, 255), 32)
  ]

  /** A first-match scan of an address table. */
  function InAnyNetwork(addr: Be32, nets: seq<Cidr>): (r: bool)
    requires WellFormed(nets)
    ensures r <==> exists i :: 0 <= i < |nets| && InNetwork(addr, nets[i].net, nets[i].prefixLen)
  {
    if nets == [] then false
    else if InNetwork(addr, nets[0].net, nets[0].prefixLen) then true
    else
      var r := InAnyNetwork(addr, nets[1..]);
      assert forall i :: 0 < i < |nets| ==> nets[1..][i - 1] == nets[i];
      r
  }

  /**
   * is_exempt as written: addr is the destination address as stored in the
   * packet; each mask and network constant is the stored form bpf_htonl gives
   * it (0xFF000000 and 0x7F000000 for 127/8, and so on). The source returns 1
   * or 0.
   */
  function IsExempt(addr: Be32): (r: bool)
    ensures r <==> ExemptOctets(addr.b0, addr.b1, addr.b2, addr.b3)
  {
    MaskFirstOctet(addr, 0x7F);
    MaskFirstOctet(addr, 0x0A);
    MaskPrivate172(addr);
    MaskPrivate192(addr);
    if MaskedEquals(addr, Be32(0xFF, 0, 0, 0), Be32(0x7F, 0, 0, 0)) then true
    else if MaskedEquals(addr, Be32(0xFF, 0, 0, 0), Be32(0x0A, 0, 0, 0)) then true
    else if MaskedEquals(addr, Be32(0xFF, 0xF0, 0, 0), Be32(0xAC, 0x10, 0, 0)) then true
    else if MaskedEquals(addr, Be32(0xFF, 0xFF, 0, 0), Be32(0xC0, 0xA8, 0, 0)) then true
    else if addr == Be32(0xFF, 0xFF, 0xFF, 0xFF) then true
    else false
  }

  lemma PrefixMaskValues()
    ensures PrefixMask(8) == Be32(0xFF, 0, 0, 0)
    ensures PrefixMask(12) == Be32(0xFF, 0xF0, 0, 0)
    ensures PrefixMask(16) == Be32(0xFF, 0xFF, 0, 0)
    ensures PrefixMask(32) == Be32(0xFF, 0xFF, 0xFF, 0xFF)
  {
  }

  /** The scan of the exempt table, unrolled into its five blocks. */
  lemma ExemptTableUnrolled(a: Be32)
    ensures InAnyNetwork(a, ExemptNetworks) <==>
      || InNetwork(a, Be32(127, 0, 0, 0), 8)
      || InNetwork(a, Be32(10, 0, 0, 0), 8)
      || InNetwork(a, Be32(172, 16, 0, 0), 12)
      || InNetwork(a, Be32(192, 168, 0, 0), 16)
      || InNetwork(a, Be32(255, 255, 255, 255), 32)
  {
    var t := ExemptNetworks;
    if InAnyNetwork(a, t) {
      var i :| 0 <= i < |t| && InNetwork(a, t[i].net, t[i].prefixLen);
      assert i == 0 || i == 1 || i == 2 || i == 3 || i == 4;
    }
    if InNetwork(a, Be32(127, 0, 0, 0), 8) {
      assert InNetwork(a, t[0].net, t[0].prefixLen);
    } else if InNetwork(a, Be32(10, 0, 0, 0), 8) {
      assert InNetwork(a, t[1].net, t[1].prefixLen);
    } else if InNetwork(a, Be32(172, 16, 0, 0), 12) {
      assert InNetwork(a, t[2].net, t[2].prefixLen);
    } else if InNetwork(a, Be32(192, 168, 0, 0), 16) {
      assert InNetwork(a, t[3].net, t[3].prefixLen);
    } else if InNetwork(a, Be32(255, 255, 255, 255), 32) {
      assert InNetwork(a, t[4].net, t[4].prefixLen);
    }
  }

  /** The masked comparisons of is_exempt are the scan of the exempt table. */
  lemma IsExemptMatchesTable(addr: Be32)
    ensures IsExempt(addr) <==> InAnyNetwork(addr, ExemptNetworks)
  {
    PrefixMaskValues();
    ExemptTableUnrolled(addr);
  }

  /** The exempt destinations, octet by octet, for the address a.b.c.d. */
  predicate ExemptOctets(a: bv8, b: bv8, c: bv8, d: bv8)
  {
    || a == 127
    || a == 10
    || (a == 172 && 16 <= b <= 31)
    || (a == 192 && b == 168)
    || (a == 255 && b == 255 && c == 255 && d == 255)
  }

  /** is_exempt holds of the destination a.b.c.d exactly for the exempt octet patterns. */
  lemma IsExemptOctets(a: bv8, b: bv8, c: bv8, d: bv8)
    ensures IsExempt(Be32(a, b, c, d)) <==> ExemptOctets(a, b, c, d)
  {
    var x := Be32(a, b, c, d);
    MaskFirstOctet(x, 0x7F);
    MaskFirstOctet(x, 0x0A);
    MaskPrivate172(x);
    MaskPrivate192(x);
  }

  /** Masking with the stored form of 0xFF000000 compares the first octet only. */
  lemma MaskFirstOctet(x: Be32, v: bv8)
    ensures MaskedEquals(x, Be32(0xFF, 0, 0, 0), Be32(v, 0, 0, 0)) <==> x.b0 == v
  {
  }

  /** Masking with the stored form of 0xFFF00000 keeps 172 and the high nibble of the second octet. */
  lemma MaskPrivate172(x: Be32)
    ensures MaskedEquals(x, Be32(0xFF, 0xF0, 0, 0), Be32(0xAC, 0x10, 0, 0)) <==> x.b0 == 172 && 16 <= x.b1 <= 31
  {
  }

  /** Masking with the stored form of 0xFFFF0000 compares the first two octets. */
  lemma MaskPrivate192(x: Be32)
    ensures MaskedEquals(x, Be32(0xFF, 0xFF, 0, 0), Be32(0xC0, 0xA8, 0, 0)) <==> x.b0 == 192 && x.b1 == 168
  {
  }

  /** The exempt table holds the destination a.b.c.d exactly for the exempt octet patterns. */
  lemma TableOctets(a: bv8, b: bv8, c: bv8, d: bv8)
    ensures InAnyNetwork(Be32(a, b, c, d), ExemptNetworks) <==> ExemptOctets(a, b, c, d)
  {
    IsExemptMatchesTable(Be32(a, b, c, d));
    IsExemptOctets(a, b, c, d);
  }
}
