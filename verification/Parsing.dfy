/** Packet parsing (headers/xdp/parsing_helpers.h). A packet is its bytes; a cursor is an
    offset into it. Every read below is at an index proved to be inside the packet. */
module Parsing {
  import opened Common

  type Packet = seq<byte>

  /** struct hdr_cursor */
  class Cursor {
    var pos: nat

    constructor (start: nat)
      ensures pos == start
    {
      pos := start;
    }
  }

  /** A 16-bit field in network byte order. */
  function Be16(pkt: Packet, at: nat): nat
    requires at + 2 <= |pkt|
  {
    256 * (pkt[at] as int) + pkt[at + 1]
  }

  // ---------------------------------------------------------------------------
  // Ethernet and VLAN tags

  const ETH_P_IP: nat := 0x0800
  const ETH_P_IPV6: nat := 0x86DD
  const ETH_P_8021Q: nat := 0x8100
  const ETH_P_8021AD: nat := 0x88A8
  const VLAN_MAX_DEPTH: nat := 4

  predicate IsVlan(proto: nat) {
    proto == ETH_P_8021Q || proto == ETH_P_8021AD
  }

  /** The EtherType behind k tags. */
  function ProtoBehind(pkt: Packet, k: nat): nat
    requires 14 + 4 * k <= |pkt|
  {
    Be16(pkt, 12 + 4 * k)
  }

  /** k tags can be skipped, and the next one cannot. */
  ghost predicate SkipsTags(pkt: Packet, k: nat) {
    && k <= VLAN_MAX_DEPTH && 14 + 4 * k <= |pkt|
    && (forall j | 0 <= j < k :: IsVlan(ProtoBehind(pkt, j)))
    && (k == VLAN_MAX_DEPTH || !IsVlan(ProtoBehind(pkt, k)) || 18 + 4 * k > |pkt|)
  }

  /** There is one such number, so it determines the result of parse_ethhdr(). */
  lemma TagsUnique(pkt: Packet, k: nat, l: nat)
    requires SkipsTags(pkt, k) && SkipsTags(pkt, l)
    ensures k == l
  {
  }

  ghost function TagsFrom(pkt: Packet, k: nat): (r: nat)
    requires k <= VLAN_MAX_DEPTH && 14 + 4 * k <= |pkt| && forall j | 0 <= j < k :: IsVlan(ProtoBehind(pkt, j))
    ensures SkipsTags(pkt, r)
    decreases VLAN_MAX_DEPTH - k
  {
    if k == VLAN_MAX_DEPTH || !IsVlan(ProtoBehind(pkt, k)) || 18 + 4 * k > |pkt| then k else TagsFrom(pkt, k + 1)
  }

  /** The number of tags skipped. */
  ghost function Tags(pkt: Packet): (r: nat)
    requires 14 <= |pkt|
    ensures SkipsTags(pkt, r)
  {
    TagsFrom(pkt, 0)
  }

  /** parse_ethhdr(), for a frame that starts at the cursor: -1, or the EtherType behind the tags
      with the cursor behind them too. */
  method ParseEthHdr(pkt: Packet, nh: Cursor) returns (proto: int)
    modifies nh
    ensures old(nh.pos) + 14 > |pkt| ==> proto == -1 && nh.pos == old(nh.pos)
    ensures old(nh.pos) + 14 <= |pkt| ==>
              var frame := pkt[old(nh.pos)..];
              && nh.pos == old(nh.pos) + 14 + 4 * Tags(frame) <= |pkt|
              && proto == ProtoBehind(frame, Tags(frame))
  {
    var start := nh.pos;
    if start + 14 > |pkt| {
      return -1;
    }
    ghost var frame := pkt[start..];
    var vlh := start + 14;
    proto := Be16(pkt, start + 12);
    var i := 0;
    while i < VLAN_MAX_DEPTH
      invariant 0 <= i <= VLAN_MAX_DEPTH && vlh == start + 14 + 4 * i <= |pkt| && proto == ProtoBehind(frame, i)
      invariant forall j | 0 <= j < i :: IsVlan(ProtoBehind(frame, j))
    {
      if !IsVlan(proto) {
        break;
      }
      if vlh + 4 > |pkt| {
        break;
      }
      proto := Be16(pkt, vlh + 2);
      vlh := vlh + 4;
      i := i + 1;
    }
    nh.pos := vlh;
    assert SkipsTags(frame, i);
    TagsUnique(frame, i, Tags(frame));
  }

  // ---------------------------------------------------------------------------
  // IPv6 extension headers

  const IPPROTO_HOPOPTS: nat := 0
  const IPPROTO_TCP: nat := 6
  const IPPROTO_UDP: nat := 17
  const IPPROTO_ROUTING: nat := 43
  const IPPROTO_FRAGMENT: nat := 44
  const IPPROTO_AH: nat := 51
  const IPPROTO_DSTOPTS: nat := 60
  const IPPROTO_MH: nat := 135
  const IPV6_EXT_MAX_CHAIN: nat := 6

  predicate IsExtension(t: nat) {
    t == IPPROTO_HOPOPTS || t == IPPROTO_DSTOPTS || t == IPPROTO_ROUTING || t == IPPROTO_MH ||
    t == IPPROTO_AH || t == IPPROTO_FRAGMENT
  }

  /** The length of an extension header whose length field is n: section 4 of RFC 8200, and
      section 2.2 of RFC 4302 for the authentication header. */
  function ExtensionLength(t: nat, n: byte): (len: nat)
    ensures len >= 8
  {
    if t == IPPROTO_AH then (n + 2) * 4 else if t == IPPROTO_FRAGMENT then 8 else (n + 1) * 8
  }

  /** The upper-layer protocol, where its header starts, and how many extension headers come before. */
  datatype Upper = Upper(proto: nat, pos: nat, extensions: nat)

  /** The header chain as RFC 8200 reads it, however long; None when an extension header does not
      fit in the packet. */
  ghost function HeaderChain(pkt: Packet, pos: nat, t: nat): (r: Option<Upper>)
    ensures r.Some? && pos <= |pkt| ==> pos <= r.value.pos <= |pkt| && !IsExtension(r.value.proto)
    decreases |pkt| - pos
  {
    if !IsExtension(t) then Some(Upper(t, pos, 0))
    else if pos + 2 > |pkt| then None
    else
      var next := pos + ExtensionLength(t, pkt[pos + 1]);
      if next > |pkt| then None
      else
        var rest := HeaderChain(pkt, next, pkt[pos]);
        if rest.None? then None
        else Some(Upper(rest.value.proto, rest.value.pos, rest.value.extensions + 1))
  }

  /** Every extension header moves the chain on by at least eight bytes. */
  lemma {:induction false} ChainAdvances(pkt: Packet, pos: nat, t: nat)
    requires HeaderChain(pkt, pos, t).Some?
    ensures var u := HeaderChain(pkt, pos, t).value; pos + 8 * u.extensions <= u.pos
    decreases |pkt| - pos
  {
    if IsExtension(t) {
      ChainAdvances(pkt, pos + ExtensionLength(t, pkt[pos + 1]), pkt[pos]);
    }
  }

  /** Some chains are longer than the loop goes; the loop also wants two bytes of whatever
      follows the last extension header. */
  ghost predicate Walkable(pkt: Packet, pos: nat, t: nat) {
    var u := HeaderChain(pkt, pos, t);
    u.Some? && u.value.extensions < IPV6_EXT_MAX_CHAIN && u.value.pos + 2 <= |pkt|
  }

  /** skip_ip6hdrext(): the RFC's answer for every chain of at most five extension headers with
      two bytes behind them, -1 for every other. */
  method SkipIp6HdrExt(pkt: Packet, nh: Cursor, first: nat) returns (proto: int)
    modifies nh
    ensures Walkable(pkt, old(nh.pos), first) ==>
              var u := HeaderChain(pkt, old(nh.pos), first).value;
              proto == u.proto && nh.pos == u.pos && nh.pos + 2 <= |pkt|
    ensures !Walkable(pkt, old(nh.pos), first) ==> proto == -1
  {
    var start := nh.pos;
    var t: nat := first;
    var i: nat := 0;
    while i < IPV6_EXT_MAX_CHAIN
      invariant 0 <= i <= IPV6_EXT_MAX_CHAIN
      invariant nh.pos >= start + 8 * i
      invariant i == 0 || nh.pos <= |pkt| ==> Continues(pkt, start, first, nh.pos, t, i)
      invariant i > 0 && nh.pos > |pkt| ==> HeaderChain(pkt, start, first).None?
    {
      var hdr := nh.pos;
      if hdr + 2 > |pkt| {
        return -1;
      }
      if t == IPPROTO_HOPOPTS || t == IPPROTO_DSTOPTS || t == IPPROTO_ROUTING || t == IPPROTO_MH {
        nh.pos := hdr + 8 * (pkt[hdr + 1] as int + 1);
        t := pkt[hdr];
      } else if t == IPPROTO_AH {
        nh.pos := hdr + 4 * (pkt[hdr + 1] as int + 2);
        t := pkt[hdr];
      } else if t == IPPROTO_FRAGMENT {
        nh.pos := hdr + 8;
        t := pkt[hdr];
      } else {
        return t;
      }
      i := i + 1;
    }
    return -1;
  }

  /** The chain from start is i extension headers followed by the chain from here. */
  ghost predicate Continues(pkt: Packet, start: nat, first: nat, pos: nat, t: nat, i: nat) {
    var whole, rest := HeaderChain(pkt, start, first), HeaderChain(pkt, pos, t);
    if rest.None? then whole.None?
    else whole == Some(Upper(rest.value.proto, rest.value.pos, rest.value.extensions + i))
  }

  // ---------------------------------------------------------------------------
  // IP headers

  /** parse_ip6hdr() */
  method ParseIp6Hdr(pkt: Packet, nh: Cursor) returns (proto: int)
    modifies nh
    ensures proto == Ip6Proto(pkt, old(nh.pos))
    ensures proto >= 0 ==> nh.pos == Ip6End(pkt, old(nh.pos)) <= |pkt|
  {
    if nh.pos + 40 > |pkt| {
      return -1;
    }
    var ip6 := nh.pos;
    nh.pos := ip6 + 40;
    proto := SkipIp6HdrExt(pkt, nh, pkt[ip6 + 6]);
  }

  ghost function Ip6Proto(pkt: Packet, pos: nat): int {
    if pos + 40 <= |pkt| && Walkable(pkt, pos + 40, pkt[pos + 6]) then HeaderChain(pkt, pos + 40, pkt[pos + 6]).value.proto
    else -1
  }

  ghost function Ip6End(pkt: Packet, pos: nat): nat
    requires Ip6Proto(pkt, pos) >= 0
  {
    HeaderChain(pkt, pos + 40, pkt[pos + 6]).value.pos
  }

  /** ihl is the low half of the first byte. */
  function Ihl(pkt: Packet, pos: nat): nat
    requires pos < |pkt|
  {
    pkt[pos] % 16
  }

  predicate HasIpHdr(pkt: Packet, pos: nat) {
    pos + 20 <= |pkt| && pos + Ihl(pkt, pos) * 4 <= |pkt|
  }

  /** parse_iphdr() */
  method ParseIpHdr(pkt: Packet, nh: Cursor) returns (proto: int)
    modifies nh
    ensures HasIpHdr(pkt, old(nh.pos)) ==>
              proto == pkt[old(nh.pos) + 9] && nh.pos == old(nh.pos) + Ihl(pkt, old(nh.pos)) * 4 <= |pkt|
    ensures !HasIpHdr(pkt, old(nh.pos)) ==> proto == -1
    ensures var ip := old(nh.pos);
            ip + 20 <= |pkt| && 0x45 <= pkt[ip] <= 0x4F && ip + 4 * (pkt[ip] - 0x40) <= |pkt| ==>
              proto == pkt[ip + 9] && nh.pos == ip + 4 * (pkt[ip] - 0x40)
  {
    if nh.pos + 20 > |pkt| {
      return -1;
    }
    var ip := nh.pos;
    var hdrsize := Ihl(pkt, ip) * 4;
    if nh.pos + hdrsize > |pkt| {
      return -1;
    }
    nh.pos := nh.pos + hdrsize;
    return pkt[ip + 9];
  }

  // ---------------------------------------------------------------------------
  // Transport headers

  predicate HasUdpHdr(pkt: Packet, pos: nat) {
    pos + 8 <= |pkt| && Be16(pkt, pos + 4) >= 8
  }

  /** parse_udphdr(): the payload length. */
  method ParseUdpHdr(pkt: Packet, nh: Cursor) returns (len: int)
    modifies nh
    ensures HasUdpHdr(pkt, old(nh.pos)) ==> len == Be16(pkt, old(nh.pos) + 4) - 8 && nh.pos == old(nh.pos) + 8
    ensures !HasUdpHdr(pkt, old(nh.pos)) ==> len == -1
  {
    var h := nh.pos;
    if h + 8 > |pkt| {
      return -1;
    }
    nh.pos := h + 8;
    len := Be16(pkt, h + 4) - 8;
    if len < 0 {
      return -1;
    }
  }

  /** The data offset is the high half of byte 12, in words. */
  predicate HasTcpHdr(pkt: Packet, pos: nat) {
    pos + 20 <= |pkt| && pos + pkt[pos + 12] / 16 * 4 <= |pkt|
  }

  /** parse_tcphdr(): the header length; the cursor moves behind the fixed part only. */
  method ParseTcpHdr(pkt: Packet, nh: Cursor) returns (len: int)
    modifies nh
    ensures HasTcpHdr(pkt, old(nh.pos)) ==> len == pkt[old(nh.pos) + 12] / 16 * 4 && nh.pos == old(nh.pos) + 20
    ensures !HasTcpHdr(pkt, old(nh.pos)) ==> len == -1
  {
    var h := nh.pos;
    if h + 20 > |pkt| {
      return -1;
    }
    len := pkt[h + 12] / 16 * 4;
    if h + len > |pkt| {
      return -1;
    }
    nh.pos := h + 20;
  }
}
