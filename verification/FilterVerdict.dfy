/** What xdp-filter decides about a packet, stated without the program: the checks a packet
    calls for, in order, and the first of them that settles the matter
    (xdp-filter/xdpfilt_prog.h). */
module FilterVerdict {
  import opened Common
  import opened Parsing

  datatype Feature = Ethernet | Ipv4 | Ipv6 | Udp | Tcp

  const ALL: set<Feature> := {Ethernet, Ipv4, Ipv6, Udp, Tcp}

  /** An entry of one of the four rule maps. */
  datatype Key = Mac(addr: seq<byte>) | Addr4(addr: seq<byte>) | Addr6(addr: seq<byte>) | Port(port: nat)

  const SRC: nat := 1
  const DST: nat := 2
  const TCP: nat := 4
  const UDP: nat := 8

  predicate HasBit(word: nat, bit: nat)
    requires bit > 0
  {
    word / bit % 2 == 1
  }

  /** One way of matching an entry: by direction and, for ports, by protocol. */
  datatype Mask = Mask(direction: nat, proto: Option<nat>)

  /** (value & mask) == mask */
  predicate Matches(word: nat, m: Mask)
    requires m.direction > 0 && (m.proto.Some? ==> m.proto.value > 0)
  {
    HasBit(word, m.direction) && (m.proto.Some? ==> HasBit(word, m.proto.value))
  }

  /** Rules as one CPU sees them: an absent entry has no flag set. */
  type Rules = map<Key, nat>

  function WordOf(rules: Rules, key: Key): nat {
    if key in rules then rules[key] else 0
  }

  // ---------------------------------------------------------------------------
  // The checks

  datatype Check = Malformed | Look(key: Key, direction: nat, proto: Option<nat>)

  predicate Proper(c: Check) {
    c.Look? ==> c.direction in {SRC, DST} && (c.proto.Some? ==> c.proto.value in {TCP, UDP}) &&
                (c.key.Port? <==> c.proto.Some?)
  }

  function MacChecks(pkt: Packet): (cs: seq<Check>)
    requires |pkt| >= 14
    ensures forall c | c in cs :: Proper(c)
  {
    [Look(Mac(pkt[0..6]), DST, None), Look(Mac(pkt[6..12]), SRC, None)]
  }

  function Addr4Checks(pkt: Packet, ip: nat): (cs: seq<Check>)
    requires ip + 20 <= |pkt|
    ensures forall c | c in cs :: Proper(c)
  {
    [Look(Addr4(pkt[ip + 16..ip + 20]), DST, None), Look(Addr4(pkt[ip + 12..ip + 16]), SRC, None)]
  }

  function Addr6Checks(pkt: Packet, ip: nat): (cs: seq<Check>)
    requires ip + 40 <= |pkt|
    ensures forall c | c in cs :: Proper(c)
  {
    [Look(Addr6(pkt[ip + 24..ip + 40]), DST, None), Look(Addr6(pkt[ip + 8..ip + 24]), SRC, None)]
  }

  function PortChecks(pkt: Packet, at: nat, proto: nat): (cs: seq<Check>)
    requires at + 4 <= |pkt| && proto in {TCP, UDP}
    ensures forall c | c in cs :: Proper(c)
  {
    [Look(Port(Be16(pkt, at + 2)), DST, Some(proto)), Look(Port(Be16(pkt, at)), SRC, Some(proto))]
  }

  /** The transport header at this offset. */
  function TransportChecks(fs: set<Feature>, pkt: Packet, at: nat, proto: nat): (cs: seq<Check>)
    ensures forall c | c in cs :: Proper(c)
  {
    if Udp in fs && proto == IPPROTO_UDP then
      (if HasUdpHdr(pkt, at) then PortChecks(pkt, at, UDP) else [Malformed])
    else if Tcp in fs && proto == IPPROTO_TCP then
      (if HasTcpHdr(pkt, at) then PortChecks(pkt, at, TCP) else [Malformed])
    else []
  }

  /** The network header at this offset, and what it carries. */
  ghost function NetworkChecks(fs: set<Feature>, pkt: Packet, etherType: nat, at: nat): (cs: seq<Check>)
    ensures forall c | c in cs :: Proper(c)
  {
    if etherType == ETH_P_IP then
      if !HasIpHdr(pkt, at) then [Malformed]
      else (if Ipv4 in fs then Addr4Checks(pkt, at) else []) +
           TransportChecks(fs, pkt, at + Ihl(pkt, at) * 4, pkt[at + 9])
    else if etherType == ETH_P_IPV6 then
      if Ip6Proto(pkt, at) < 0 then [Malformed]
      else (if Ipv6 in fs then Addr6Checks(pkt, at) else []) +
           TransportChecks(fs, pkt, Ip6End(pkt, at), Ip6Proto(pkt, at))
    else []
  }

  /** All checks a program with these features makes, as long as none settles the matter. */
  ghost function Checks(fs: set<Feature>, pkt: Packet): (cs: seq<Check>)
    ensures forall c | c in cs :: Proper(c)
  {
    if |pkt| < 14 then [Malformed]
    else
      (if Ethernet in fs then MacChecks(pkt) else []) + RestChecks(fs, pkt)
  }

  /** Whatever follows the Ethernet header and its tags. */
  ghost function RestChecks(fs: set<Feature>, pkt: Packet): (cs: seq<Check>)
    requires |pkt| >= 14
    ensures forall c | c in cs :: Proper(c)
  {
    if fs <= {Ethernet} then []
    else NetworkChecks(fs, pkt, ProtoBehind(pkt, Tags(pkt)), 14 + 4 * Tags(pkt))
  }

  // ---------------------------------------------------------------------------
  // The first check that settles the matter

  datatype Outcome = Abort | Hit(key: Key) | Miss

  ghost predicate Settles(c: Check, rules: Rules)
    requires Proper(c)
  {
    c.Malformed? || Matches(WordOf(rules, c.key), Mask(c.direction, c.proto))
  }

  ghost function First(cs: seq<Check>, rules: Rules): Outcome
    requires forall c | c in cs :: Proper(c)
  {
    if cs == [] then Miss
    else if !Settles(cs[0], rules) then First(cs[1..], rules)
    else if cs[0].Malformed? then Abort
    else Hit(cs[0].key)
  }

  /** First is what its name says. */
  lemma {:induction false} FirstIsFirst(cs: seq<Check>, rules: Rules, i: nat)
    requires (forall c | c in cs :: Proper(c)) && i < |cs| && Settles(cs[i], rules)
    requires forall j | 0 <= j < i :: !Settles(cs[j], rules)
    ensures First(cs, rules) == if cs[i].Malformed? then Abort else Hit(cs[i].key)
  {
    if i > 0 {
      assert !Settles(cs[0], rules);
      FirstIsFirst(cs[1..], rules, i - 1);
    }
  }

  lemma {:induction false} MissMeansNone(cs: seq<Check>, rules: Rules)
    requires forall c | c in cs :: Proper(c)
    ensures First(cs, rules).Miss? <==> forall c | c in cs :: !Settles(c, rules)
  {
    if cs != [] {
      MissMeansNone(cs[1..], rules);
      assert cs == [cs[0]] + cs[1..];
    }
  }

  lemma {:induction false} FirstAppend(a: seq<Check>, b: seq<Check>, rules: Rules)
    requires (forall c | c in a :: Proper(c)) && (forall c | c in b :: Proper(c))
    ensures forall c | c in a + b :: Proper(c)
    ensures First(a + b, rules) == if First(a, rules).Miss? then First(b, rules) else First(a, rules)
  {
    if a == [] {
      assert a + b == b;
    } else {
      FirstAppend(a[1..], b, rules);
      assert (a + b)[1..] == a[1..] + b;
    }
  }

  /** The outcome of a program with these features. */
  ghost function Verdict(fs: set<Feature>, pkt: Packet, rules: Rules): Outcome {
    First(Checks(fs, pkt), rules)
  }

  // ---------------------------------------------------------------------------
  // Actions

  const XDP_ABORTED: nat := 0
  const XDP_DROP: nat := 1
  const XDP_PASS: nat := 2

  function HitAction(deny: bool): nat {
    if deny then XDP_PASS else XDP_DROP
  }

  function MissAction(deny: bool): nat {
    if deny then XDP_DROP else XDP_PASS
  }

  function ActionOf(o: Outcome, deny: bool): nat {
    match o
    case Abort => XDP_ABORTED
    case Hit(_) => HitAction(deny)
    case Miss => MissAction(deny)
  }

  /** Outside aborts the deny program passes exactly what the allow program drops. */
  lemma DenyComplementsAllow(fs: set<Feature>, pkt: Packet, rules: Rules)
    ensures var o := Verdict(fs, pkt, rules);
            && (ActionOf(o, true) == XDP_PASS <==> ActionOf(o, false) == XDP_DROP)
            && (ActionOf(o, true) == XDP_DROP <==> ActionOf(o, false) == XDP_PASS)
            && (ActionOf(o, true) == XDP_ABORTED <==> ActionOf(o, false) == XDP_ABORTED)
  {
  }

  // ---------------------------------------------------------------------------
  // Specialisation: a program built with fewer features

  /** A program with these features makes this check. */
  predicate Serves(fs: set<Feature>, c: Check)
    requires c.Look?
  {
    match c.key
    case Mac(_) => Ethernet in fs
    case Addr4(_) => Ipv4 in fs
    case Addr6(_) => Ipv6 in fs
    case Port(_) => (c.proto == Some(TCP) && Tcp in fs) || (c.proto == Some(UDP) && Udp in fs)
  }

  function ClearBit(word: nat, bit: nat): nat
    requires bit > 0
  {
    if HasBit(word, bit) then word - bit else word
  }

  /** The rules with everything emptied that belongs to a feature outside fs: the entries of its
      map or, in the port map that TCP and UDP share, its flag bit. */
  function Emptied(fs: set<Feature>, rules: Rules): Rules {
    map key | key in rules :: EmptiedWord(fs, key, rules[key])
  }

  function EmptiedWord(fs: set<Feature>, key: Key, word: nat): nat {
    match key
    case Mac(_) => if Ethernet in fs then word else 0
    case Addr4(_) => if Ipv4 in fs then word else 0
    case Addr6(_) => if Ipv6 in fs then word else 0
    case Port(_) =>
      var w := if Tcp in fs then word else ClearBit(word, TCP);
      if Udp in fs then w else ClearBit(w, UDP)
  }

  /** The flags of a word are those of its low four bits. */
  lemma LowBits(q: nat, r: nat, bit: nat)
    requires r < 16 && bit in {SRC, DST, TCP, UDP}
    ensures HasBit(16 * q + r, bit) <==> HasBit(r, bit)
  {
    if bit == SRC {
      assert (16 * q + r) / 1 == 2 * (8 * q) + r;
    } else if bit == DST {
      assert (16 * q + r) / 2 == 2 * (4 * q) + r / 2;
    } else if bit == TCP {
      assert (16 * q + r) / 4 == 2 * (2 * q) + r / 4;
    } else {
      assert (16 * q + r) / 8 == 2 * q + r / 8;
    }
  }

  lemma ClearedLowBits(r: nat, bit: nat, other: nat)
    requires r < 16 && bit in {TCP, UDP} && other in {SRC, DST, TCP, UDP}
    ensures HasBit(ClearBit(r, bit), other) <==> HasBit(r, other) && other != bit
  {
  }

  lemma ClearedBits(word: nat, bit: nat, other: nat)
    requires bit in {TCP, UDP} && other in {SRC, DST, TCP, UDP}
    ensures HasBit(ClearBit(word, bit), other) <==> HasBit(word, other) && other != bit
  {
    var q, r := word / 16, word % 16;
    LowBits(q, r, bit);
    LowBits(q, r, other);
    ClearedLowBits(r, bit, other);
    var s := ClearBit(r, bit);
    assert ClearBit(word, bit) == 16 * q + s;
    LowBits(q, s, other);
    hide HasBit;
  }

  /** Emptying takes away exactly the matches of the features left out. */
  lemma EmptiedSettles(fs: set<Feature>, rules: Rules, c: Check)
    requires c.Look? && Proper(c)
    ensures Settles(c, Emptied(fs, rules)) <==> Settles(c, rules) && Serves(fs, c)
  {
    if c.key in rules && c.key.Port? {
      var word := rules[c.key];
      var w := if Tcp in fs then word else ClearBit(word, TCP);
      ClearedBits(word, TCP, c.direction);
      ClearedBits(word, TCP, c.proto.value);
      ClearedBits(w, UDP, c.direction);
      ClearedBits(w, UDP, c.proto.value);
      hide HasBit, ClearBit;
    }
  }

  /** some is all without checks that fs does not make, and perhaps without parse failures. */
  ghost predicate Thinned(all: seq<Check>, some: seq<Check>, fs: set<Feature>)
    decreases |all|
  {
    if all == [] then some == []
    else
      || (some != [] && some[0] == all[0] && (all[0].Look? ==> Serves(fs, all[0])) && Thinned(all[1..], some[1..], fs))
      || ((all[0].Look? ==> !Serves(fs, all[0])) && Thinned(all[1..], some, fs))
  }

  lemma {:induction false} ThinnedFirst(all: seq<Check>, some: seq<Check>, fs: set<Feature>, rules: Rules)
    requires (forall c | c in all :: Proper(c)) && (forall c | c in some :: Proper(c)) && Thinned(all, some, fs)
    requires First(all, Emptied(fs, rules)) != Abort
    ensures First(some, rules) == First(all, Emptied(fs, rules))
    decreases |all|
  {
    if all != [] {
      hide Emptied, Serves, Settles, Proper;
      var c := all[0];
      assert Proper(c);
      assert c.Look? by {
        MalformedSettles(c, Emptied(fs, rules));
      }
      EmptiedSettles(fs, rules, c);
      if !Settles(c, Emptied(fs, rules)) {
        if some != [] && some[0] == c && Serves(fs, c) && Thinned(all[1..], some[1..], fs) {
          ThinnedFirst(all[1..], some[1..], fs, rules);
        } else {
          ThinnedFirst(all[1..], some, fs, rules);
        }
      }
    }
  }

  /** A check that fails to parse is the last one. */
  ghost predicate MalformedLast(cs: seq<Check>) {
    forall i | 0 <= i < |cs| - 1 :: cs[i].Look?
  }

  lemma {:induction false} ThinnedAbort(all: seq<Check>, some: seq<Check>, fs: set<Feature>, rules: Rules)
    requires (forall c | c in all :: Proper(c)) && (forall c | c in some :: Proper(c)) && Thinned(all, some, fs)
    requires MalformedLast(all) && First(all, Emptied(fs, rules)) == Abort
    ensures First(some, rules) == Abort <==> Malformed in some
    decreases |all|
  {
    hide Emptied, Serves, Settles, Proper;
    var c := all[0];
    assert Proper(c);
    MalformedSettles(c, rules);
    if c.Malformed? {
      assert all == [c];
    } else {
      EmptiedSettles(fs, rules, c);
      assert MalformedLast(all[1..]);
      if some != [] && some[0] == c && Serves(fs, c) && Thinned(all[1..], some[1..], fs) {
        ThinnedAbort(all[1..], some[1..], fs, rules);
        assert some == [c] + some[1..];
      } else {
        ThinnedAbort(all[1..], some, fs, rules);
      }
    }
  }

  lemma MalformedSettles(c: Check, rules: Rules)
    ensures c.Malformed? ==> Settles(c, rules)
  {
  }

  lemma {:induction false} ThinnedAppend(a: seq<Check>, b: seq<Check>, c: seq<Check>, d: seq<Check>, fs: set<Feature>)
    requires Thinned(a, c, fs) && Thinned(b, d, fs)
    ensures Thinned(a + b, c + d, fs)
    decreases |a|
  {
    hide Serves;
    if a == [] {
      assert a + b == b && c + d == d;
    } else {
      assert (a + b)[1..] == a[1..] + b;
      if c != [] && c[0] == a[0] && (a[0].Look? ==> Serves(fs, a[0])) && Thinned(a[1..], c[1..], fs) {
        ThinnedAppend(a[1..], b, c[1..], d, fs);
        assert (c + d)[1..] == c[1..] + d;
      } else {
        ThinnedAppend(a[1..], b, c, d, fs);
      }
    }
  }

  lemma {:induction false} ThinnedToNothing(all: seq<Check>, fs: set<Feature>)
    requires forall c | c in all :: c.Look? ==> !Serves(fs, c)
    ensures Thinned(all, [], fs)
  {
    if all != [] {
      ThinnedToNothing(all[1..], fs);
    }
  }

  lemma {:induction false} ThinnedToItself(all: seq<Check>, fs: set<Feature>)
    requires forall c | c in all :: c.Look? ==> Serves(fs, c)
    ensures Thinned(all, all, fs)
  {
    if all != [] {
      ThinnedToItself(all[1..], fs);
    }
  }

  /** Checks of one kind are all kept or all left out. */
  lemma ThinnedKind(all: seq<Check>, fs: set<Feature>, kept: bool)
    requires forall c | c in all :: c.Look? ==> Serves(fs, c) == kept
    ensures Thinned(all, if kept then all else [], fs)
  {
    if kept {
      ThinnedToItself(all, fs);
    } else {
      ThinnedToNothing(all, fs);
    }
  }

  lemma TransportThinned(fs: set<Feature>, pkt: Packet, at: nat, proto: nat)
    ensures Thinned(TransportChecks(ALL, pkt, at, proto), TransportChecks(fs, pkt, at, proto), fs)
  {
    hide Thinned;
    var all := TransportChecks(ALL, pkt, at, proto);
    if proto == IPPROTO_UDP {
      ThinnedKind(all, fs, Udp in fs);
    } else {
      ThinnedKind(all, fs, Tcp in fs);
    }
  }

  lemma NetworkThinned(fs: set<Feature>, pkt: Packet, etherType: nat, at: nat)
    ensures Thinned(NetworkChecks(ALL, pkt, etherType, at), NetworkChecks(fs, pkt, etherType, at), fs)
  {
    hide Thinned, TransportChecks, HasIpHdr;
    if etherType == ETH_P_IP && HasIpHdr(pkt, at) {
      assert at + 20 <= |pkt| by {
        HasIpHdrRoom(pkt, at);
      }
      ThinnedKind(Addr4Checks(pkt, at), fs, Ipv4 in fs);
      var end, proto := at + Ihl(pkt, at) * 4, pkt[at + 9];
      TransportThinned(fs, pkt, end, proto);
      ThinnedAppend(Addr4Checks(pkt, at), TransportChecks(ALL, pkt, end, proto),
                    if Ipv4 in fs then Addr4Checks(pkt, at) else [], TransportChecks(fs, pkt, end, proto), fs);
    } else if etherType == ETH_P_IPV6 && Ip6Proto(pkt, at) >= 0 {
      ThinnedKind(Addr6Checks(pkt, at), fs, Ipv6 in fs);
      var end, proto := Ip6End(pkt, at), Ip6Proto(pkt, at);
      TransportThinned(fs, pkt, end, proto);
      ThinnedAppend(Addr6Checks(pkt, at), TransportChecks(ALL, pkt, end, proto),
                    if Ipv6 in fs then Addr6Checks(pkt, at) else [], TransportChecks(fs, pkt, end, proto), fs);
    } else {
      ThinnedToItself(NetworkChecks(ALL, pkt, etherType, at), fs);
    }
  }

  lemma HasIpHdrRoom(pkt: Packet, at: nat)
    requires HasIpHdr(pkt, at)
    ensures at + 20 <= |pkt|
  {
  }

  lemma NetworkUnserved(fs: set<Feature>, pkt: Packet, etherType: nat, at: nat)
    requires fs <= {Ethernet}
    ensures Thinned(NetworkChecks(ALL, pkt, etherType, at), [], fs)
  {
    hide Thinned;
    ThinnedToNothing(NetworkChecks(ALL, pkt, etherType, at), fs);
  }

  lemma MacThinned(fs: set<Feature>, pkt: Packet)
    requires |pkt| >= 14
    ensures Thinned(MacChecks(pkt), if Ethernet in fs then MacChecks(pkt) else [], fs)
  {
    hide Thinned;
    ThinnedKind(MacChecks(pkt), fs, Ethernet in fs);
  }

  lemma RestThinned(fs: set<Feature>, pkt: Packet)
    requires |pkt| >= 14
    ensures Thinned(RestChecks(ALL, pkt), RestChecks(fs, pkt), fs)
  {
    hide Thinned, NetworkChecks, SkipsTags;
    assert Ipv4 in ALL && Ipv4 !in {Ethernet};
    var proto, at := ProtoBehind(pkt, Tags(pkt)), 14 + 4 * Tags(pkt);
    if fs <= {Ethernet} {
      NetworkUnserved(fs, pkt, proto, at);
    } else {
      NetworkThinned(fs, pkt, proto, at);
    }
  }

  lemma ChecksThinned(fs: set<Feature>, pkt: Packet)
    ensures Thinned(Checks(ALL, pkt), Checks(fs, pkt), fs)
  {
    hide Thinned, RestChecks;
    if |pkt| < 14 {
      ThinnedToItself([Malformed], fs);
    } else {
      MacThinned(fs, pkt);
      RestThinned(fs, pkt);
      assert Ethernet in ALL;
      hide MacChecks;
      ThinnedAppend(MacChecks(pkt), RestChecks(ALL, pkt), if Ethernet in fs then MacChecks(pkt) else [],
                    RestChecks(fs, pkt), fs);
    }
  }

  lemma TransportMalformedLast(pkt: Packet, at: nat, proto: nat)
    ensures MalformedLast(TransportChecks(ALL, pkt, at, proto))
  {
  }

  lemma AppendMalformedLast(a: seq<Check>, b: seq<Check>)
    requires (forall c | c in a :: c.Look?) && MalformedLast(b)
    ensures MalformedLast(a + b)
  {
    forall i | 0 <= i < |a + b| - 1
      ensures (a + b)[i].Look?
    {
      if i < |a| {
        assert a[i] in a;
      } else {
        assert (a + b)[i] == b[i - |a|];
      }
    }
  }

  lemma NetworkMalformedLast(pkt: Packet, etherType: nat, at: nat)
    ensures MalformedLast(NetworkChecks(ALL, pkt, etherType, at))
  {
    hide TransportChecks, MalformedLast, HasIpHdr;
    assert Ipv4 in ALL && Ipv6 in ALL;
    if etherType == ETH_P_IP && HasIpHdr(pkt, at) {
      assert at + 20 <= |pkt| by {
        HasIpHdrRoom(pkt, at);
      }
      var end, proto := at + Ihl(pkt, at) * 4, pkt[at + 9];
      TransportMalformedLast(pkt, end, proto);
      AppendMalformedLast(Addr4Checks(pkt, at), TransportChecks(ALL, pkt, end, proto));
    } else if etherType == ETH_P_IPV6 && Ip6Proto(pkt, at) >= 0 {
      var end, proto := Ip6End(pkt, at), Ip6Proto(pkt, at);
      TransportMalformedLast(pkt, end, proto);
      AppendMalformedLast(Addr6Checks(pkt, at), TransportChecks(ALL, pkt, end, proto));
    } else {
      assert MalformedLast([Malformed]) && MalformedLast([]) by {
        Short();
      }
    }
  }

  lemma Short()
    ensures MalformedLast([Malformed]) && MalformedLast([])
  {
  }

  lemma ChecksMalformedLast(pkt: Packet)
    ensures MalformedLast(Checks(ALL, pkt))
  {
    hide MalformedLast, NetworkChecks, SkipsTags;
    Short();
    assert Ethernet in ALL && Ipv4 in ALL && Ipv4 !in {Ethernet};
    if |pkt| >= 14 {
      NetworkMalformedLast(pkt, ProtoBehind(pkt, Tags(pkt)), 14 + 4 * Tags(pkt));
      AppendMalformedLast(MacChecks(pkt), RestChecks(ALL, pkt));
    }
  }

  /** A program with fewer features decides as the full program does with the other rules emptied,
      except where the full program aborts on a header that the other one does not parse. */
  lemma Specialises(fs: set<Feature>, pkt: Packet, rules: Rules)
    ensures Verdict(fs, pkt, rules) == Verdict(ALL, pkt, Emptied(fs, rules)) <==>
            Verdict(ALL, pkt, Emptied(fs, rules)) != Abort || Malformed in Checks(fs, pkt)
  {
    ChecksThinned(fs, pkt);
    ChecksMalformedLast(pkt);
    hide Thinned, Checks, First, Emptied, MalformedLast;
    if Verdict(ALL, pkt, Emptied(fs, rules)) == Abort {
      ThinnedAbort(Checks(ALL, pkt), Checks(fs, pkt), fs, rules);
    } else {
      ThinnedFirst(Checks(ALL, pkt), Checks(fs, pkt), fs, rules);
    }
  }

  /** Such a packet: a lone Ethernet header announcing IPv4 makes the full program
      abort, while a program that only looks at Ethernet addresses lets it miss. */
  lemma AbortsDiffer(pkt: Packet)
    requires |pkt| == 14 && Be16(pkt, 12) == ETH_P_IP
    ensures Verdict(ALL, pkt, map[]).Abort? && Verdict({Ethernet}, pkt, map[]).Miss?
  {
    TagsUnique(pkt, 0, Tags(pkt));
    var m := MacChecks(pkt);
    assert First(m, map[]).Miss? by {
      MissMeansNone(m, map[]);
    }
    assert Checks({Ethernet}, pkt) == m + [] == m;
    assert Ipv4 in ALL && Checks(ALL, pkt) == m + [Malformed];
    FirstAppend(m, [Malformed], map[]);
  }
}
