/**
 * Multi-byte header fields. The classifier reads them straight out of packet
 * memory, where they are stored in network (big-endian) byte order.
 *
 * A 16-bit field that the source converts with bpf_ntohs is modelled by its
 * host-order value, Be16. A 32-bit field that the source keeps in network
 * order (__be32) and compares, under a mask, with constants converted by
 * bpf_htonl is modelled by its four stored bytes: bitwise AND and equality of
 * two integers of the same width act on each stored byte alike, so the
 * comparison is made byte by byte and gives the same answer on either host
 * byte order.
 */
module ByteOrder {

  /** bpf_ntohs of the 16-bit field whose stored bytes are hi, lo. */
  function Be16(hi: bv8, lo: bv8): (r: bv16)
    ensures r >> 8 == hi as bv16 && r & 0xFF == lo as bv16
  {
    (hi as bv16 << 8) | lo as bv16
  }

  /** Two fields with the same host-order value were stored as the same bytes. */
  lemma Be16Injective(hi: bv8, lo: bv8, hi': bv8, lo': bv8)
    ensures Be16(hi, lo) == Be16(hi', lo') <==> hi == hi' && lo == lo'
  {
  }

  /** A network-order 32-bit value as its stored bytes, most significant first. */
  datatype Be32 = Be32(b0: bv8, b1: bv8, b2: bv8, b3: bv8)

  /** (x & mask) == value for network-order values, byte by byte. */
  predicate MaskedEquals(x: Be32, mask: Be32, value: Be32)
  {
    && x.b0 & mask.b0 == value.b0
    && x.b1 & mask.b1 == value.b1
    && x.b2 & mask.b2 == value.b2
    && x.b3 & mask.b3 == value.b3
  }
}
