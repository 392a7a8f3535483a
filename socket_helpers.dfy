/**
 * The kernel's socket helpers as the classifier sees them: bpf_skc_lookup_tcp,
 * bpf_sk_lookup_udp, bpf_sk_assign and bpf_sk_release. Their behaviour lives
 * in the kernel, so here they answer from a fixed table and record every call
 * in a log, which is what the classifier's contract is stated against.
 */
module SocketHelpers {
  import opened Wrappers
  import opened ByteOrder

  /** A socket reference handed out by a lookup (a non-NULL struct bpf_sock *). */
  datatype Sock = Sock(id: nat)

  /**
   * The lookup key (struct bpf_sock_tuple, ipv4 part) the classifier passes:
   * the destination address as stored and the destination port by its
   * host-order value.
   */
  datatype SockTuple = SockTuple(daddr: Be32, dport: bv16)

  /** What the helpers answer for one packet. */
  datatype SocketTable = SocketTable(
    tcpListener: Option<Sock>,  // result of bpf_skc_lookup_tcp
    udpListener: Option<Sock>,  // result of bpf_sk_lookup_udp
    assignResult: int           // result of bpf_sk_assign
  )

  /** One helper call, with its arguments and, for a lookup, its answer. */
  datatype Call =
    | LookupTcp(tuple: SockTuple, tupleLen: nat, found: Option<Sock>)
    | LookupUdp(tuple: SockTuple, tupleLen: nat, found: Option<Sock>)
    | Assign(sk: Sock)
    | Release(sk: Sock)

  /** The sockets a call sequence acquired: one per successful lookup. */
  function Acquired(calls: seq<Call>): multiset<Sock>
  {
    if calls == [] then multiset{}
    else
      var c := calls[|calls| - 1];
      Acquired(calls[..|calls| - 1])
        + if (c.LookupTcp? || c.LookupUdp?) && c.found.Some? then multiset{c.found.value} else multiset{}
  }

  /** The sockets a call sequence released. */
  function Released(calls: seq<Call>): multiset<Sock>
  {
    if calls == [] then multiset{}
    else
      var c := calls[|calls| - 1];
      Released(calls[..|calls| - 1]) + if c.Release? then multiset{c.sk} else multiset{}
  }

  /** The number of lookups in a call sequence. */
  function Lookups(calls: seq<Call>): nat
  {
    if calls == [] then 0
    else
      var c := calls[|calls| - 1];
      Lookups(calls[..|calls| - 1]) + if c.LookupTcp? || c.LookupUdp? then 1 else 0
  }

  /** A lookup that found sk, followed by an assign and a release of sk, leaves nothing held. */
  lemma LookupAssignRelease(lookup: Call, sk: Sock)
    requires (lookup.LookupTcp? || lookup.LookupUdp?) && lookup.found == Some(sk)
    ensures Released([lookup, Assign(sk), Release(sk)]) == Acquired([lookup, Assign(sk), Release(sk)]) == multiset{sk}
    ensures Lookups([lookup, Assign(sk), Release(sk)]) == 1
  {
    var calls := [lookup, Assign(sk), Release(sk)];
    assert calls[..2] == [lookup, Assign(sk)];
    assert calls[..2][..1] == [lookup];
    assert [lookup][..0] == [];
    assert Acquired([lookup]) == multiset{sk} && Released([lookup]) == multiset{} && Lookups([lookup]) == 1;
    assert Acquired(calls[..2]) == multiset{sk} && Released(calls[..2]) == multiset{} && Lookups(calls[..2]) == 1;
  }

  /** A lookup that found nothing holds nothing. */
  lemma LookupNotFound(lookup: Call)
    requires (lookup.LookupTcp? || lookup.LookupUdp?) && lookup.found == None
    ensures Released([lookup]) == Acquired([lookup]) == multiset{}
    ensures Lookups([lookup]) == 1
  {
    assert [lookup][..0] == [];
  }

  /** The helpers for one packet: fixed answers, and the calls made so far. */
  class Kernel {
    const table: SocketTable
    var log: seq<Call>

    constructor (table: SocketTable)
      ensures this.table == table && log == []
    {
      this.table := table;
      log := [];
    }

    method SkcLookupTcp(tuple: SockTuple, tupleLen: nat) returns (sk: Option<Sock>)
      modifies this
      ensures sk == table.tcpListener
      ensures log == old(log) + [LookupTcp(tuple, tupleLen, sk)]
    {
      sk := table.tcpListener;
      log := log + [LookupTcp(tuple, tupleLen, sk)];
    }

    method SkLookupUdp(tuple: SockTuple, tupleLen: nat) returns (sk: Option<Sock>)
      modifies this
      ensures sk == table.udpListener
      ensures log == old(log) + [LookupUdp(tuple, tupleLen, sk)]
    {
      sk := table.udpListener;
      log := log + [LookupUdp(tuple, tupleLen, sk)];
    }

    method SkAssign(sk: Sock) returns (ret: int)
      modifies this
      ensures ret == table.assignResult
      ensures log == old(log) + [Assign(sk)]
    {
      ret := table.assignResult;
      log := log + [Assign(sk)];
    }

    method SkRelease(sk: Sock)
      modifies this
      ensures log == old(log) + [Release(sk)]
    {
      log := log + [Release(sk)];
    }
  }
}
