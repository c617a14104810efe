/** What xdp-filter decides about a frame, stated on the fields the frame is built from: addresses,
    VLAN tags, header lengths, extension headers and ports, laid out as on the wire. */
module FilterFrames {
  import opened Common
  import opened Parsing
  import opened FilterVerdict
  import opened FilterProgram

  /** An 802.1Q tag, or an 802.1ad one, with its two bytes of control information. */
  datatype Tag = Tag(ad: bool, tci: seq<byte>)

  /** An IPv6 extension header: its type, and everything behind its first byte. */
  datatype Extension = Extension(kind: byte, body: seq<byte>)

  datatype Segment =
    | UdpSegment(sport: nat, dport: nat, length: nat, rest: seq<byte>)
    | TcpSegment(sport: nat, dport: nat, numbers: seq<byte>, words: nat, low: nat, rest: seq<byte>)
    | OtherSegment(proto: byte, bytes: seq<byte>)

  datatype Net =
    | Ip4(words: nat, front: seq<byte>, check: seq<byte>, src: seq<byte>, dst: seq<byte>, options: seq<byte>, seg: Segment)
    | Ip6(front: seq<byte>, hops: byte, src: seq<byte>, dst: seq<byte>, exts: seq<Extension>, seg: Segment)
    | OtherNet(etherType: nat, bytes: seq<byte>)

  datatype Frame = Frame(dst: seq<byte>, src: seq<byte>, tags: seq<Tag>, net: Net)

  // ---------------------------------------------------------------------------
  // Layout

  /** High byte first. */
  function Pair(n: nat): seq<byte>
    requires n < 0x1_0000
  {
    [n / 256, n % 256]
  }

  predicate GoodSegment(seg: Segment) {
    match seg
    case UdpSegment(sport, dport, length, rest) =>
      sport < 0x1_0000 && dport < 0x1_0000 && 8 <= length < 0x1_0000 && |rest| >= 2
    case TcpSegment(sport, dport, numbers, words, low, rest) =>
      && sport < 0x1_0000 && dport < 0x1_0000 && |numbers| == 8 && words < 16 && low < 16
      && |rest| >= 7 && 13 + |rest| >= 4 * words
    case OtherSegment(proto, bytes) => proto != 17 && proto != 6
  }

  function SegmentProto(seg: Segment): byte {
    match seg
    case UdpSegment(_, _, _, _) => 17
    case TcpSegment(_, _, _, _, _, _) => 6
    case OtherSegment(proto, _) => proto
  }

  function SegmentBytes(seg: Segment): seq<byte>
    requires GoodSegment(seg)
  {
    match seg
    case UdpSegment(sport, dport, length, rest) => Pair(sport) + Pair(dport) + Pair(length) + rest
    case TcpSegment(sport, dport, numbers, words, low, rest) =>
      Pair(sport) + Pair(dport) + numbers + [16 * words + low] + rest
    case OtherSegment(_, bytes) => bytes
  }

  /** Sections 4.3 to 4.6 of RFC 8200 and section 2.2 of RFC 4302: the length is in units of eight bytes
      after the first, except for fragments, which have no length, and authentication, which counts
      four bytes at a time after the second. */
  predicate GoodExtension(x: Extension) {
    && |x.body| >= 7
    && var length: nat, size := x.body[0], 1 + |x.body|;
       || ((x.kind == 0 || x.kind == 43 || x.kind == 60 || x.kind == 135) && size == 8 * length + 8)
       || (x.kind == 51 && size == 4 * length + 8)
       || (x.kind == 44 && size == 8)
  }

  function FirstKind(exts: seq<Extension>, proto: byte): byte {
    if exts == [] then proto else exts[0].kind
  }

  /** Every extension header starts with the type of what follows it. */
  function ChainBytes(exts: seq<Extension>, proto: byte): seq<byte> {
    if exts == [] then [] else [FirstKind(exts[1..], proto)] + exts[0].body + ChainBytes(exts[1..], proto)
  }

  predicate GoodNet(net: Net) {
    match net
    case Ip4(words, front, check, src, dst, options, seg) =>
      && 5 <= words <= 15 && |front| == 8 && |check| == 2 && |src| == 4 && |dst| == 4 && |options| == 4 * (words - 5)
      && GoodSegment(seg)
    case Ip6(front, _, src, dst, exts, seg) =>
      && |front| == 6 && |src| == 16 && |dst| == 16 && (forall x | x in exts :: GoodExtension(x))
      && GoodSegment(seg) && |SegmentBytes(seg)| >= 2 && SegmentProto(seg) !in {0, 43, 44, 51, 60, 135}
    case OtherNet(etherType, _) => etherType < 0x1_0000 && etherType !in {0x0800, 0x86DD, 0x8100, 0x88A8}
  }

  function EtherType(net: Net): nat {
    match net
    case Ip4(_, _, _, _, _, _, _) => 0x0800
    case Ip6(_, _, _, _, _, _) => 0x86DD
    case OtherNet(etherType, _) => etherType
  }

  function NetBytes(net: Net): seq<byte>
    requires GoodNet(net)
  {
    match net
    case Ip4(words, front, check, src, dst, options, seg) =>
      [0x40 + words] + front + [SegmentProto(seg)] + check + src + dst + options + SegmentBytes(seg)
    case Ip6(front, hops, src, dst, exts, seg) =>
      front + [FirstKind(exts, SegmentProto(seg)), hops] + src + dst + ChainBytes(exts, SegmentProto(seg)) + SegmentBytes(seg)
    case OtherNet(_, bytes) => bytes
  }

  function TagType(tag: Tag): nat {
    if tag.ad then 0x88A8 else 0x8100
  }

  /** The type in front of each tag, and the one of the network header behind the last. */
  function TypeBytes(tags: seq<Tag>, etherType: nat): seq<byte>
    requires etherType < 0x1_0000
  {
    if tags == [] then Pair(etherType) else Pair(TagType(tags[0])) + tags[0].tci + TypeBytes(tags[1..], etherType)
  }

  predicate GoodFrame(f: Frame) {
    |f.dst| == 6 && |f.src| == 6 && (forall t | t in f.tags :: |t.tci| == 2) && GoodNet(f.net)
  }

  function FrameBytes(f: Frame): Packet
    requires GoodFrame(f)
  {
    f.dst + f.src + TypeBytes(f.tags, EtherType(f.net)) + NetBytes(f.net)
  }

  // ---------------------------------------------------------------------------
  // What the rules say about the fields

  /** The entry has this flag. */
  predicate Flagged(rules: Rules, key: Key, flag: nat)
    requires flag > 0
  {
    key in rules && rules[key] / flag % 2 == 1
  }

  /** Destination (flag 2) before source (flag 1). */
  function Either(rules: Rules, dst: Key, src: Key, otherwise: Outcome): Outcome {
    if Flagged(rules, dst, 2) then Hit(dst) else if Flagged(rules, src, 1) then Hit(src) else otherwise
  }

  /** The same for ports that are also flagged with the protocol. */
  function EitherPort(rules: Rules, dport: nat, sport: nat, proto: nat): Outcome
    requires proto > 0
  {
    if Flagged(rules, Port(dport), 2) && Flagged(rules, Port(dport), proto) then Hit(Port(dport))
    else if Flagged(rules, Port(sport), 1) && Flagged(rules, Port(sport), proto) then Hit(Port(sport))
    else Miss
  }

  function SegmentVerdict(fs: set<Feature>, seg: Segment, rules: Rules): Outcome {
    match seg
    case UdpSegment(sport, dport, _, _) => if Udp in fs then EitherPort(rules, dport, sport, 8) else Miss
    case TcpSegment(sport, dport, _, _, _, _) => if Tcp in fs then EitherPort(rules, dport, sport, 4) else Miss
    case OtherSegment(_, _) => Miss
  }

  function NetVerdict(fs: set<Feature>, net: Net, rules: Rules): Outcome {
    match net
    case Ip4(_, _, _, src, dst, _, seg) =>
      var inner := SegmentVerdict(fs, seg, rules);
      if Ipv4 in fs then Either(rules, Addr4(dst), Addr4(src), inner) else inner
    case Ip6(_, _, src, dst, exts, seg) =>
      var inner := SegmentVerdict(fs, seg, rules);
      if |exts| > 5 then Abort
      else if Ipv6 in fs then Either(rules, Addr6(dst), Addr6(src), inner)
      else inner
    case OtherNet(_, _) => Miss
  }

  /** Behind more than four tags nothing is looked at. */
  function FrameVerdict(fs: set<Feature>, f: Frame, rules: Rules): Outcome {
    var inner := if fs <= {Ethernet} || |f.tags| > 4 then Miss else NetVerdict(fs, f.net, rules);
    if Ethernet in fs then Either(rules, Mac(f.dst), Mac(f.src), inner) else inner
  }

  // ---------------------------------------------------------------------------
  // The program reads these fields

  lemma TwoChecks(dst: Key, src: Key, proto: Option<nat>, rules: Rules)
    requires Proper(Look(dst, DST, proto)) && Proper(Look(src, SRC, proto))
    ensures First([Look(dst, DST, proto), Look(src, SRC, proto)], rules) ==
            if Flagged(rules, dst, 2) && (proto.Some? ==> Flagged(rules, dst, proto.value)) then Hit(dst)
            else if Flagged(rules, src, 1) && (proto.Some? ==> Flagged(rules, src, proto.value)) then Hit(src)
            else Miss
  {
    FirstOfTwo(Look(dst, DST, proto), Look(src, SRC, proto), rules);
    NoFlagsNoMatch(Mask(DST, proto));
    NoFlagsNoMatch(Mask(SRC, proto));
  }

  /** A 16-bit field read at an offset. */
  lemma ReadPair(pkt: Packet, at: nat, n: nat)
    requires n < 0x1_0000 && at + 2 <= |pkt| && pkt[at] == n / 256 && pkt[at + 1] == n % 256
    ensures Be16(pkt, at) == n
  {
  }

  lemma SegmentAt(fs: set<Feature>, pkt: Packet, at: nat, seg: Segment, rules: Rules)
    requires GoodSegment(seg) && at <= |pkt| && pkt[at..] == SegmentBytes(seg)
    ensures First(TransportChecks(fs, pkt, at, SegmentProto(seg)), rules) == SegmentVerdict(fs, seg, rules)
  {
    Singletons(rules);
    var b := SegmentBytes(seg);
    assert forall i | 0 <= i < |b| :: pkt[at + i] == b[i];
    if seg.UdpSegment? {
      ReadPair(pkt, at, seg.sport);
      ReadPair(pkt, at + 2, seg.dport);
      ReadPair(pkt, at + 4, seg.length);
      TwoChecks(Port(seg.dport), Port(seg.sport), Some(UDP), rules);
    } else if seg.TcpSegment? {
      ReadPair(pkt, at, seg.sport);
      ReadPair(pkt, at + 2, seg.dport);
      assert pkt[at + 12] == 16 * seg.words + seg.low;
      TwoChecks(Port(seg.dport), Port(seg.sport), Some(TCP), rules);
    }
    hide First;
  }

  /** The first extension header as the walk sees it. */
  lemma ExtensionAt(pkt: Packet, pos: nat, x: Extension, next: byte, behind: seq<byte>)
    requires GoodExtension(x) && pos <= |pkt| && pkt[pos..] == [next] + x.body + behind
    ensures pos + 2 <= |pkt| && pkt[pos] == next && IsExtension(x.kind)
    ensures var end := pos + 1 + |x.body|;
            end <= |pkt| && pos + ExtensionLength(x.kind, pkt[pos + 1]) == end && pkt[end..] == behind
  {
    var b := pkt[pos..];
    assert pkt[pos] == b[0] && pkt[pos + 1] == b[1] == x.body[0];
    assert pkt[pos + 1 + |x.body|..] == b[1 + |x.body|..] == behind;
  }

  lemma {:induction false} ChainAt(pkt: Packet, pos: nat, exts: seq<Extension>, proto: byte, tail: seq<byte>)
    requires pos <= |pkt| && pkt[pos..] == ChainBytes(exts, proto) + tail
    requires (forall x | x in exts :: GoodExtension(x)) && proto !in {0, 43, 44, 51, 60, 135}
    ensures HeaderChain(pkt, pos, FirstKind(exts, proto)) ==
            Some(Upper(proto, pos + |ChainBytes(exts, proto)|, |exts|))
    decreases |exts|
  {
    hide GoodExtension, ExtensionLength, ChainBytes, FirstKind;
    ChainStarts(exts, proto, tail);
    if exts != [] {
      var x, rest := exts[0], exts[1..];
      assert x in exts;
      ExtensionAt(pkt, pos, x, FirstKind(rest, proto), ChainBytes(rest, proto) + tail);
      ChainAt(pkt, pos + 1 + |x.body|, rest, proto, tail);
    }
  }

  lemma ChainStarts(exts: seq<Extension>, proto: byte, tail: seq<byte>)
    ensures exts == [] ==> ChainBytes(exts, proto) == [] && FirstKind(exts, proto) == proto
    ensures exts != [] ==>
              var behind := ChainBytes(exts[1..], proto);
              && FirstKind(exts, proto) == exts[0].kind
              && ChainBytes(exts, proto) + tail == [FirstKind(exts[1..], proto)] + exts[0].body + (behind + tail)
              && |ChainBytes(exts, proto)| == 1 + |exts[0].body| + |behind|
  {
  }

  lemma Net4Fields(pkt: Packet, at: nat, net: Net)
    requires net.Ip4? && GoodNet(net) && at <= |pkt| && pkt[at..] == NetBytes(net)
    ensures var end := at + 4 * net.words;
            && at + 20 <= end <= |pkt|
            && pkt[at] == 0x40 + net.words && pkt[at + 9] == SegmentProto(net.seg)
            && pkt[at + 12..at + 16] == net.src && pkt[at + 16..at + 20] == net.dst
            && pkt[end..] == SegmentBytes(net.seg)
  {
    hide SegmentBytes, SegmentProto, GoodSegment;
    var b, tail := NetBytes(net), SegmentBytes(net.seg);
    var fixed := [0x40 + net.words] + net.front + [SegmentProto(net.seg)] + net.check + net.src + net.dst;
    assert |fixed| == 20 && b == fixed + net.options + tail;
    assert fixed[0] == 0x40 + net.words && fixed[9] == SegmentProto(net.seg);
    assert fixed[12..16] == net.src && fixed[16..20] == net.dst;
    assert pkt[at] == b[0] == fixed[0] && pkt[at + 9] == b[9] == fixed[9];
    assert pkt[at + 12..at + 16] == b[12..16] == fixed[12..16];
    assert pkt[at + 16..at + 20] == b[16..20] == fixed[16..20];
    assert pkt[at + 4 * net.words..] == b[4 * net.words..] == tail;
  }

  lemma Net4At(fs: set<Feature>, pkt: Packet, at: nat, net: Net, rules: Rules)
    requires net.Ip4? && GoodNet(net) && at <= |pkt| && pkt[at..] == NetBytes(net)
    ensures First(NetworkChecks(fs, pkt, 0x0800, at), rules) == NetVerdict(fs, net, rules)
  {
    hide First, TransportChecks, NetworkChecks, SegmentVerdict, SegmentBytes, Addr4Checks, NetBytes;
    Net4Fields(pkt, at, net);
    assert Ihl(pkt, at) == net.words;
    NetworkVerdict(fs, pkt, ETH_P_IP, at, rules);
    Addr4ChecksAre(pkt, at);
    TwoChecks(Addr4(net.dst), Addr4(net.src), None, rules);
    SegmentAt(fs, pkt, at + 4 * net.words, net.seg, rules);
  }

  lemma Net6Fields(pkt: Packet, at: nat, net: Net)
    requires net.Ip6? && GoodNet(net) && at <= |pkt| && pkt[at..] == NetBytes(net)
    ensures var proto, tail := SegmentProto(net.seg), SegmentBytes(net.seg);
            var chain := ChainBytes(net.exts, proto);
            && at + 40 + |chain| <= |pkt| && |pkt| == at + 40 + |chain| + |tail|
            && pkt[at + 6] == FirstKind(net.exts, proto)
            && pkt[at + 8..at + 24] == net.src && pkt[at + 24..at + 40] == net.dst
            && pkt[at + 40..] == chain + tail && pkt[at + 40 + |chain|..] == tail
  {
    hide SegmentBytes, ChainBytes, FirstKind, SegmentProto, GoodExtension;
    var b := NetBytes(net);
    var proto, tail := SegmentProto(net.seg), SegmentBytes(net.seg);
    var chain := ChainBytes(net.exts, proto);
    var head := net.front + [FirstKind(net.exts, proto), net.hops] + net.src + net.dst;
    assert |head| == 40 && b == head + chain + tail;
    assert head[6] == FirstKind(net.exts, proto) && head[8..24] == net.src && head[24..40] == net.dst;
    assert pkt[at + 6] == b[6] == head[6];
    assert pkt[at + 8..at + 24] == b[8..24] == head[8..24];
    assert pkt[at + 24..at + 40] == b[24..40] == head[24..40];
    assert pkt[at + 40..] == b[40..] == chain + tail;
    assert pkt[at + 40 + |chain|..] == b[40 + |chain|..] == tail;
  }

  lemma Net6At(fs: set<Feature>, pkt: Packet, at: nat, net: Net, rules: Rules)
    requires net.Ip6? && GoodNet(net) && at <= |pkt| && pkt[at..] == NetBytes(net)
    ensures First(NetworkChecks(fs, pkt, 0x86DD, at), rules) == NetVerdict(fs, net, rules)
  {
    hide First, TransportChecks, NetworkChecks, SegmentVerdict, SegmentBytes, Addr6Checks, HeaderChain, NetBytes, ChainBytes,
      GoodExtension;
    var proto, tail := SegmentProto(net.seg), SegmentBytes(net.seg);
    var chain := ChainBytes(net.exts, proto);
    Net6Fields(pkt, at, net);
    ChainAt(pkt, at + 40, net.exts, proto, tail);
    NetworkVerdict(fs, pkt, ETH_P_IPV6, at, rules);
    Addr6ChecksAre(pkt, at);
    TwoChecks(Addr6(net.dst), Addr6(net.src), None, rules);
    SegmentAt(fs, pkt, at + 40 + |chain|, net.seg, rules);
  }

  lemma NetAt(fs: set<Feature>, pkt: Packet, at: nat, net: Net, rules: Rules)
    requires GoodNet(net) && at <= |pkt| && pkt[at..] == NetBytes(net)
    ensures First(NetworkChecks(fs, pkt, EtherType(net), at), rules) == NetVerdict(fs, net, rules)
  {
    hide First, NetworkChecks;
    if net.Ip4? {
      Net4At(fs, pkt, at, net, rules);
    } else if net.Ip6? {
      Net6At(fs, pkt, at, net, rules);
    } else {
      NetworkVerdict(fs, pkt, net.etherType, at, rules);
    }
  }

  lemma {:induction false} TypeAt(tags: seq<Tag>, etherType: nat, k: nat)
    requires etherType < 0x1_0000 && (forall t | t in tags :: |t.tci| == 2) && k <= |tags|
    ensures var b := TypeBytes(tags, etherType);
            && |b| == 4 * |tags| + 2
            && b[4 * k..4 * k + 2] == Pair(if k < |tags| then TagType(tags[k]) else etherType)
  {
    if tags != [] {
      var b, rest := TypeBytes(tags, etherType), TypeBytes(tags[1..], etherType);
      assert tags[0] in tags && |Pair(TagType(tags[0])) + tags[0].tci| == 4;
      TypeAt(tags[1..], etherType, if k > 0 then k - 1 else 0);
      assert b == (Pair(TagType(tags[0])) + tags[0].tci) + rest;
      if k > 0 {
        assert b[4 * k..4 * k + 2] == rest[4 * (k - 1)..4 * (k - 1) + 2];
      }
    }
  }

  /** The types a reader of the frame finds, tag by tag. */
  lemma FrameType(f: Frame, k: nat)
    requires GoodFrame(f) && k <= |f.tags|
    ensures |FrameBytes(f)| >= 14 + 4 * |f.tags|
    ensures ProtoBehind(FrameBytes(f), k) == if k < |f.tags| then TagType(f.tags[k]) else EtherType(f.net)
  {
    var pkt, b := FrameBytes(f), TypeBytes(f.tags, EtherType(f.net));
    TypeAt(f.tags, EtherType(f.net), k);
    hide NetBytes, TypeBytes;
    var t := if k < |f.tags| then TagType(f.tags[k]) else EtherType(f.net);
    assert pkt[12 + 4 * k] == b[4 * k] == b[4 * k..4 * k + 2][0];
    assert pkt[13 + 4 * k] == b[4 * k + 1] == b[4 * k..4 * k + 2][1];
    ReadPair(pkt, 12 + 4 * k, t);
  }

  lemma FrameTags(f: Frame)
    requires GoodFrame(f)
    ensures |FrameBytes(f)| >= 14 && Tags(FrameBytes(f)) == if |f.tags| <= 4 then |f.tags| else 4
  {
    var pkt := FrameBytes(f);
    var n := if |f.tags| <= 4 then |f.tags| else 4;
    forall k | 0 <= k <= |f.tags|
      ensures |pkt| >= 14 + 4 * |f.tags| && ProtoBehind(pkt, k) == if k < |f.tags| then TagType(f.tags[k]) else EtherType(f.net)
    {
      FrameType(f, k);
    }
    hide FrameBytes;
    assert SkipsTags(pkt, n);
    TagsUnique(pkt, n, Tags(pkt));
  }

  /** For every frame, every feature set and all rules, the verdict on the bytes of the frame is what the
      rules say about its fields. */
  lemma FieldsDecide(fs: set<Feature>, f: Frame, rules: Rules)
    requires GoodFrame(f)
    ensures Verdict(fs, FrameBytes(f), rules) == FrameVerdict(fs, f, rules)
  {
    hide First, NetworkChecks, Verdict, NetVerdict, FrameBytes, MacChecks, SkipsTags, NetBytes, TypeBytes;
    var pkt := FrameBytes(f);
    FrameTags(f);
    FrameMacs(f);
    WholeVerdict(fs, pkt, rules);
    TwoChecks(Mac(f.dst), Mac(f.src), None, rules);
    MacChecksAre(pkt);
    var n := Tags(pkt);
    FrameType(f, n);
    if |f.tags| <= 4 {
      FrameNet(f);
      NetAt(fs, pkt, 14 + 4 * n, f.net, rules);
    } else {
      NetworkVerdict(fs, pkt, TagType(f.tags[4]), 14 + 4 * n, rules);
    }
  }

  lemma FrameMacs(f: Frame)
    requires GoodFrame(f) && |FrameBytes(f)| >= 14
    ensures FrameBytes(f)[0..6] == f.dst && FrameBytes(f)[6..12] == f.src
  {
    hide NetBytes, TypeBytes;
  }

  lemma FrameNet(f: Frame)
    requires GoodFrame(f)
    ensures 14 + 4 * |f.tags| <= |FrameBytes(f)| && FrameBytes(f)[14 + 4 * |f.tags|..] == NetBytes(f.net)
  {
    TypeAt(f.tags, EtherType(f.net), 0);
    hide NetBytes, TypeBytes;
  }

  /** A single rule for a port, by direction (2: destination, 1: source) and protocol (8: UDP, 4: TCP), is hit
      by exactly the frames of that protocol to or from that port; the allow program then drops the
      frame (1) and otherwise lets it pass (2), the deny program does the opposite. */
  lemma LonePortRule(fs: set<Feature>, f: Frame, port: nat, direction: nat, proto: nat)
    requires GoodFrame(f) && |f.tags| <= 4 && (f.net.Ip4? || (f.net.Ip6? && |f.net.exts| <= 5))
    requires Udp in fs && Tcp in fs && direction in {1, 2} && proto in {4, 8}
    ensures var seg := f.net.seg;
            var meant := (proto == 8 && seg.UdpSegment?) || (proto == 4 && seg.TcpSegment?);
            var hit := meant && port == if direction == 2 then seg.dport else seg.sport;
            var o := Verdict(fs, FrameBytes(f), map[Port(port) := direction + proto]);
            && (o == if hit then Hit(Port(port)) else Miss)
            && ActionOf(o, false) == (if hit then 1 else 2) && ActionOf(o, true) == (if hit then 2 else 1)
  {
    hide Verdict, FrameBytes, GoodFrame, FrameVerdict;
    FieldsDecide(fs, f, map[Port(port) := direction + proto]);
    OnlyPortCounts(fs, f, port, direction + proto);
    OnePort(port, direction, proto, f.net.seg);
  }

  /** With rules for ports only, the segment decides. */
  lemma OnlyPortCounts(fs: set<Feature>, f: Frame, port: nat, word: nat)
    requires |f.tags| <= 4 && (f.net.Ip4? || (f.net.Ip6? && |f.net.exts| <= 5)) && Udp in fs
    ensures FrameVerdict(fs, f, map[Port(port) := word]) == SegmentVerdict(fs, f.net.seg, map[Port(port) := word])
  {
    hide SegmentVerdict;
    assert Udp !in {Ethernet};
  }

  lemma OnePort(port: nat, direction: nat, proto: nat, seg: Segment)
    requires direction in {1, 2} && proto in {4, 8}
    ensures var rules := map[Port(port) := direction + proto];
            && (seg.UdpSegment? ==>
                  EitherPort(rules, seg.dport, seg.sport, 8) ==
                  if proto == 8 && port == (if direction == 2 then seg.dport else seg.sport) then Hit(Port(port)) else Miss)
            && (seg.TcpSegment? ==>
                  EitherPort(rules, seg.dport, seg.sport, 4) ==
                  if proto == 4 && port == (if direction == 2 then seg.dport else seg.sport) then Hit(Port(port)) else Miss)
  {
  }
}
