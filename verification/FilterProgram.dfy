/** The xdp-filter BPF program and the flag edits of its command line tool, over the rule maps
    they share (xdp-filter/xdpfilt_prog.h, xdp-filter/xdp-filter.c, headers/xdp/xdp_stats_kern.h). */
module FilterProgram {
  import opened Common
  import opened Parsing
  import opened FilterVerdict
  import opened FilterCounters

  const XDP_ACTION_MAX: nat := 5

  // ---------------------------------------------------------------------------
  // The rule maps

  /** Per-CPU words of every rule; all copies of a rule carry the same flags. */
  ghost predicate Shaped(words: map<Key, seq<nat>>, cpus: nat) {
    forall k | k in words ::
      && |words[k]| == cpus
      && (forall i | 0 <= i < cpus :: words[k][i] < WORD)
      && (forall i, j | 0 <= i < j < cpus :: FilterCounters.Flags(words[k][i]) == FilterCounters.Flags(words[k][j]))
  }

  /** The rules as the program sees them on one CPU. */
  ghost function View(words: map<Key, seq<nat>>, cpu: nat): Rules {
    map k | k in words && cpu < |words[k]| :: words[k][cpu]
  }

  /** The maps after a packet with this outcome. */
  ghost function After(words: map<Key, seq<nat>>, o: Outcome, cpu: nat): map<Key, seq<nat>> {
    if o.Hit? && o.key in words && cpu < |words[o.key]| then Bump(words, o.key, cpu) else words
  }

  /** This packet pushes a counter past its 58 bits. */
  ghost predicate Wraps(words: map<Key, seq<nat>>, o: Outcome, cpu: nat) {
    o.Hit? && o.key in words && cpu < |words[o.key]| && Count(words[o.key][cpu]) + 1 >= COUNTER_LIMIT
  }

  lemma BumpShaped(words: map<Key, seq<nat>>, cpus: nat, k: Key, cpu: nat)
    requires Shaped(words, cpus) && k in words && cpu < cpus
    ensures Shaped(Bump(words, k, cpu), cpus)
  {
    BumpedKeepsFlags(words[k][cpu]);
    hide Bumped;
    var after := Bump(words, k, cpu);
    forall l | l in after
      ensures |after[l]| == cpus
      ensures forall i | 0 <= i < cpus :: after[l][i] < WORD
      ensures forall i, j | 0 <= i < j < cpus :: FilterCounters.Flags(after[l][i]) == FilterCounters.Flags(after[l][j])
    {
      if l == k {
        assert forall i | 0 <= i < cpus ::
            after[l][i] < WORD && FilterCounters.Flags(after[l][i]) == FilterCounters.Flags(words[k][i]);
      } else {
        assert after[l] == words[l];
      }
    }
  }

  lemma NoFlagsNoMatch(m: Mask)
    requires m.direction > 0 && (m.proto.Some? ==> m.proto.value > 0)
    ensures !Matches(0, m)
  {
  }

  lemma FirstOfTwo(a: Check, b: Check, rules: Rules)
    requires Proper(a) && Proper(b) && a.Look? && b.Look?
    ensures First([a, b], rules) ==
            if Settles(a, rules) then Hit(a.key) else if Settles(b, rules) then Hit(b.key) else Miss
  {
    assert [a, b][1..] == [b] && [b][1..] == [];
    assert First([], rules) == Miss;
    assert First([b], rules) == if Settles(b, rules) then Hit(b.key) else Miss;
  }

  /** The loop of map_set_flags(). */
  method RewriteFlags(given: seq<nat>, flags: nat) returns (values: seq<nat>)
    ensures values == if flags != 0 then Edited(given, flags) else seq(|given|, _ => 0)
  {
    values := given;
    var i := 0;
    while i < |values|
      invariant 0 <= i <= |values| == |given|
      invariant forall j | i <= j < |values| :: values[j] == given[j]
      invariant forall j | 0 <= j < i :: values[j] == if flags != 0 then Reflagged(given[j], flags) else 0
    {
      values := values[i := if flags != 0 then Reflagged(values[i], flags) else 0];
      i := i + 1;
    }
  }

  /** The words of one rule: one per CPU, with the same flags. */
  ghost predicate RuleShaped(ws: seq<nat>, cpus: nat) {
    && |ws| == cpus
    && (forall i | 0 <= i < cpus :: ws[i] < WORD)
    && (forall i, j | 0 <= i < j < cpus :: FilterCounters.Flags(ws[i]) == FilterCounters.Flags(ws[j]))
  }

  lemma RuleLength(ws: seq<nat>, cpus: nat)
    requires RuleShaped(ws, cpus)
    ensures |ws| == cpus
  {
  }

  lemma ReadShaped(words: map<Key, seq<nat>>, cpus: nat, key: Key)
    requires Shaped(words, cpus)
    ensures RuleShaped(if key in words then words[key] else seq(cpus, _ => 0), cpus)
  {
  }

  /** The hits counted by one rule. */
  ghost function CountOf(words: map<Key, seq<nat>>, key: Key): nat {
    if key in words then Sum(Counts(words[key])) else 0
  }

  lemma HitsRemove(words: map<Key, seq<nat>>, key: Key)
    ensures Hits(words - {key}) == Hits(words) - CountOf(words, key)
    ensures CountOf(words - {key}, key) == 0
  {
    if key in words {
      HitsOfOne(words.Keys, words, key);
      HitsOfSame(words.Keys - {key}, words, words - {key});
      assert (words - {key}).Keys == words.Keys - {key};
    } else {
      assert words - {key} == words;
    }
  }

  lemma ShapedRemove(words: map<Key, seq<nat>>, cpus: nat, key: Key)
    requires Shaped(words, cpus)
    ensures Shaped(words - {key}, cpus)
  {
  }

  /** Storing the rewritten words: what it means for the maps. */
  lemma EditedRule(words: map<Key, seq<nat>>, cpus: nat, key: Key, before: seq<nat>, after: seq<nat>, flags: nat,
                   delete: bool)
    requires Shaped(words, cpus) && RuleShaped(before, cpus) && (flags != 0 || !delete)
    requires after == if flags != 0 then Edited(before, flags) else seq(cpus, _ => 0)
    ensures Shaped(words[key := after], cpus)
    ensures EditResult(words, words[key := after], key, flags, delete, before)
    ensures Hits(words[key := after]) == Hits(words) - CountOf(words, key) + CountOf(words[key := after], key)
  {
    if flags != 0 {
      EditKeepsCounts(before, flags);
      assert forall i | 0 <= i < cpus :: after[i] in after;
    }
    HitsUpdate(words, key, after);
  }

  /** What the edit of a rule makes of the maps, when its words were read before. */
  ghost predicate EditResult(mid: map<Key, seq<nat>>, words: map<Key, seq<nat>>, key: Key, flags: nat, delete: bool,
                             seen: seq<nat>)
  {
    if flags == 0 && delete then words == mid - {key}
    else
      && key in words && words == mid[key := words[key]] && |words[key]| == |seen|
      && (flags == 0 ==> forall i | 0 <= i < |seen| :: words[key][i] == 0)
      && (flags != 0 ==>
            && Counts(words[key]) == Counts(seen)
            && forall i | 0 <= i < |seen| :: FilterCounters.Flags(words[key][i]) == flags % 16)
  }

  /** The maps after some packets. */
  ghost function AfterAll(fs: set<Feature>, words: map<Key, seq<nat>>, pkts: seq<(nat, Packet)>): map<Key, seq<nat>> {
    if pkts == [] then words
    else
      var mid := AfterAll(fs, words, pkts[..|pkts| - 1]);
      var (cpu, pkt) := pkts[|pkts| - 1];
      After(mid, Verdict(fs, pkt, View(mid, cpu)), cpu)
  }

  /** How many of these packets hit a rule, and how often that wraps a counter of it. */
  ghost function HitsOn(fs: set<Feature>, words: map<Key, seq<nat>>, pkts: seq<(nat, Packet)>, key: Key): (nat, nat) {
    if pkts == [] then (0, 0)
    else
      var before := pkts[..|pkts| - 1];
      var mid := AfterAll(fs, words, before);
      var (cpu, pkt) := pkts[|pkts| - 1];
      var o := Verdict(fs, pkt, View(mid, cpu));
      var (hits, wraps) := HitsOn(fs, words, before, key);
      (hits + One(o == Hit(key)), wraps + One(o == Hit(key) && Wraps(mid, o, cpu)))
  }

  lemma {:induction false} SameKeys(fs: set<Feature>, words: map<Key, seq<nat>>, pkts: seq<(nat, Packet)>)
    ensures AfterAll(fs, words, pkts).Keys == words.Keys
  {
    hide Verdict, View;
    if pkts != [] {
      SameKeys(fs, words, pkts[..|pkts| - 1]);
    }
  }

  /** One for yes. */
  function One(b: bool): nat {
    if b then 1 else 0
  }

  /** The rule maps, and how often a counter in them has wrapped. */
  datatype Maps = Maps(words: map<Key, seq<nat>>, wraps: nat)

  /** What the program leaves behind when the outcome is o: the action, and the maps. */
  ghost predicate Settled(o: Outcome, cpu: nat, deny: bool, before: Maps, after: Maps, action: nat) {
    && action == ActionOf(o, deny) && after.words == After(before.words, o, cpu)
    && after.wraps == before.wraps + One(Wraps(before.words, o, cpu))
  }

  lemma SettledUnchanged(cpu: nat, deny: bool, m: Maps)
    ensures Settled(Miss, cpu, deny, m, m, MissAction(deny)) && Settled(Abort, cpu, deny, m, m, XDP_ABORTED)
  {
  }

  lemma SettledMiss(o: Outcome, cpu: nat, deny: bool, before: Maps, after: Maps, action: nat)
    requires Settled(o, cpu, deny, before, after, action)
    ensures o.Miss? <==> action == MissAction(deny)
    ensures o.Miss? ==> before == after
  {
  }

  lemma MacChecksAre(pkt: Packet)
    requires |pkt| >= 14
    ensures MacChecks(pkt) == [Look(Mac(pkt[0..6]), DST, None), Look(Mac(pkt[6..12]), SRC, None)]
  {
  }

  lemma Addr4ChecksAre(pkt: Packet, ip: nat)
    requires ip + 20 <= |pkt|
    ensures Addr4Checks(pkt, ip) ==
            [Look(Addr4(pkt[ip + 16..ip + 20]), DST, None), Look(Addr4(pkt[ip + 12..ip + 16]), SRC, None)]
  {
  }

  lemma Addr6ChecksAre(pkt: Packet, ip: nat)
    requires ip + 40 <= |pkt|
    ensures Addr6Checks(pkt, ip) ==
            [Look(Addr6(pkt[ip + 24..ip + 40]), DST, None), Look(Addr6(pkt[ip + 8..ip + 24]), SRC, None)]
  {
  }

  /** The earlier outcome, unless it is a miss. */
  ghost function Then(a: Outcome, b: Outcome): Outcome {
    if a.Miss? then b else a
  }

  lemma FirstOptional(checks: seq<Check>, present: bool, rest: seq<Check>, rules: Rules)
    requires (forall c | c in checks :: Proper(c)) && (forall c | c in rest :: Proper(c))
    ensures forall c | c in (if present then checks else []) + rest :: Proper(c)
    ensures First((if present then checks else []) + rest, rules) ==
            if present then Then(First(checks, rules), First(rest, rules)) else First(rest, rules)
  {
    if present {
      FirstAppend(checks, rest, rules);
    } else {
      assert [] + rest == rest;
    }
  }

  /** The verdict on a network header, layer by layer. */
  lemma NetworkVerdict(fs: set<Feature>, pkt: Packet, etherType: nat, at: nat, rules: Rules)
    ensures var o := First(NetworkChecks(fs, pkt, etherType, at), rules);
            if etherType == ETH_P_IP then
              if !HasIpHdr(pkt, at) then o == Abort
              else
                var t := First(TransportChecks(fs, pkt, at + Ihl(pkt, at) * 4, pkt[at + 9]), rules);
                o == if Ipv4 in fs then Then(First(Addr4Checks(pkt, at), rules), t) else t
            else if etherType == ETH_P_IPV6 then
              if Ip6Proto(pkt, at) < 0 then o == Abort
              else
                var t := First(TransportChecks(fs, pkt, Ip6End(pkt, at), Ip6Proto(pkt, at)), rules);
                o == if Ipv6 in fs then Then(First(Addr6Checks(pkt, at), rules), t) else t
            else o == Miss
  {
    Singletons(rules);
    hide First, TransportChecks, Proper, Ip6Proto, Ip6End;
    if etherType == ETH_P_IP {
      if HasIpHdr(pkt, at) {
        FirstOptional(Addr4Checks(pkt, at), Ipv4 in fs, TransportChecks(fs, pkt, at + Ihl(pkt, at) * 4, pkt[at + 9]),
                      rules);
      }
    } else if etherType == ETH_P_IPV6 {
      if Ip6Proto(pkt, at) >= 0 {
        Ip6Room(pkt, at);
        FirstOptional(Addr6Checks(pkt, at), Ipv6 in fs,
                      TransportChecks(fs, pkt, Ip6End(pkt, at), Ip6Proto(pkt, at)), rules);
      }
    }
  }

  lemma Ip6Room(pkt: Packet, at: nat)
    requires Ip6Proto(pkt, at) >= 0
    ensures at + 40 <= |pkt|
  {
  }

  /** The verdict on a packet, layer by layer. */
  lemma WholeVerdict(fs: set<Feature>, pkt: Packet, rules: Rules)
    ensures |pkt| < 14 ==> Verdict(fs, pkt, rules) == Abort
    ensures |pkt| >= 14 ==>
              var rest := if fs <= {Ethernet} then Miss
                          else First(NetworkChecks(fs, pkt, ProtoBehind(pkt, Tags(pkt)), 14 + 4 * Tags(pkt)), rules);
              Verdict(fs, pkt, rules) == if Ethernet in fs then Then(First(MacChecks(pkt), rules), rest) else rest
  {
    Singletons(rules);
    hide First, NetworkChecks, Proper, SkipsTags;
    if |pkt| >= 14 {
      var rest := if fs <= {Ethernet} then []
                  else NetworkChecks(fs, pkt, ProtoBehind(pkt, Tags(pkt)), 14 + 4 * Tags(pkt));
      FirstOptional(MacChecks(pkt), Ethernet in fs, rest, rules);
    }
  }

  /** One 64-bit word per CPU. */
  ghost predicate Row(row: seq<nat>, cpus: nat) {
    |row| == cpus && forall c | 0 <= c < cpus :: row[c] < WORD
  }

  /** Packets recorded under an action, on all CPUs. */
  ghost function Total(stats: seq<seq<nat>>, a: nat): nat {
    if a < |stats| then Sum(stats[a]) else 0
  }

  ghost function Recorded(stats: seq<seq<nat>>): nat {
    Total(stats, 0) + Total(stats, 1) + Total(stats, 2) + Total(stats, 3) + Total(stats, 4)
  }

  /** A word of the statistics, by action and CPU. */
  ghost function Rx(stats: seq<seq<nat>>, a: nat, c: nat): nat {
    if a < |stats| && c < |stats[a]| then stats[a][c] else 0
  }

  /** The statistics with one word replaced. */
  function Stored(stats: seq<seq<nat>>, a: nat, c: nat, v: nat): seq<seq<nat>> {
    if a < |stats| && c < |stats[a]| then
      var row: seq<nat> := stats[a][c := v];
      stats[a := row]
    else stats
  }

  lemma StoredTotals(stats: seq<seq<nat>>, a: nat, c: nat, v: nat)
    requires a < |stats| == XDP_ACTION_MAX && c < |stats[a]|
    ensures Total(Stored(stats, a, c, v), a) == Total(stats, a) - Rx(stats, a, c) + v
    ensures forall b: nat | b != a :: Total(Stored(stats, a, c, v), b) == Total(stats, b)
    ensures Recorded(Stored(stats, a, c, v)) == Recorded(stats) - Rx(stats, a, c) + v
  {
    SumUpdate(stats[a], c, v);
    hide Sum;
  }

  ghost predicate StatsShaped(stats: seq<seq<nat>>, cpus: nat) {
    |stats| == XDP_ACTION_MAX && forall a | 0 <= a < XDP_ACTION_MAX :: Row(stats[a], cpus)
  }

  lemma StoredShaped(stats: seq<seq<nat>>, cpus: nat, a: nat, c: nat, v: nat)
    requires StatsShaped(stats, cpus) && v < WORD
    ensures StatsShaped(Stored(stats, a, c, v), cpus)
  {
  }

  class Filter {
    const cpus: nat
    const features: set<Feature>
    const deny: bool
    var words: map<Key, seq<nat>>
    /** rx_packets and rx_bytes, by action and CPU. */
    var packets: seq<seq<nat>>
    var bytes: seq<seq<nat>>
    ghost var processed: nat
    /** How often the counter of a rule has wrapped, a packet counter of the statistics, and one of
        those under the hit action. */
    ghost var ruleWraps: nat
    ghost var packetWraps: nat
    ghost var hitWraps: nat
    /** Hits that edits of the rules have taken away. */
    ghost var forgotten: int

    ghost predicate Stats()
      reads this
    {
      StatsShaped(packets, cpus) && StatsShaped(bytes, cpus)
    }

    /** Packets recorded under any action are the packets processed; hits counted by the rules, with
        those forgotten, are the packets recorded under the hit action. */
    ghost predicate Conserved()
      reads this
    {
      && Recorded(packets) + packetWraps * WORD == processed
      && Hits(words) + forgotten + ruleWraps * COUNTER_LIMIT == Total(packets, HitAction(deny)) + hitWraps * WORD
    }

    ghost predicate Valid()
      reads this
    {
      Shaped(words, cpus) && Stats() && Conserved()
    }

    ghost function Now(): Maps
      reads this
    {
      Maps(words, ruleWraps)
    }

    constructor (n: nat, fs: set<Feature>, d: bool)
      ensures Valid() && cpus == n && features == fs && deny == d && words == map[] && processed == 0
      ensures ruleWraps == packetWraps == hitWraps == 0 && forgotten == 0
    {
      cpus := n;
      features := fs;
      deny := d;
      words := map[];
      var zeros := seq(n, _ => 0);
      packets := [zeros, zeros, zeros, zeros, zeros];
      bytes := [zeros, zeros, zeros, zeros, zeros];
      processed := 0;
      ruleWraps, packetWraps, hitWraps, forgotten := 0, 0, 0, 0;
      SumOfZeros(zeros);
    }

    // -------------------------------------------------------------------------
    // The program

    /** CHECK_MAP */
    method CheckMap(cpu: nat, key: Key, direction: nat, proto: Option<nat>) returns (hit: bool)
      requires Shaped(words, cpus) && cpu < cpus && Proper(Look(key, direction, proto))
      modifies this`words, this`ruleWraps
      ensures Shaped(words, cpus)
      ensures hit <==> Settles(Look(key, direction, proto), View(old(words), cpu))
      ensures var o := if hit then Hit(key) else Miss;
              words == After(old(words), o, cpu) && ruleWraps == old(ruleWraps) + One(Wraps(old(words), o, cpu))
      ensures hit ==> key in old(words)
    {
      NoFlagsNoMatch(Mask(direction, proto));
      hit := false;
      if key in words {
        var value := words[key][cpu];
        hit := Matches(value, Mask(direction, proto));
        if hit {
          BumpShaped(words, cpus, key, cpu);
          ruleWraps := ruleWraps + One(Count(value) + 1 >= COUNTER_LIMIT);
          var copies: seq<nat> := words[key][cpu := Bumped(value)];
          words := words[key := copies];
        }
      }
    }

    /** lookup_verdict_*(): destination first, then source. */
    method LookupVerdict(cpu: nat, dst: Key, src: Key, proto: Option<nat>, ghost checks: seq<Check>)
        returns (action: nat)
      requires Shaped(words, cpus) && cpu < cpus
      requires Proper(Look(dst, DST, proto)) && Proper(Look(src, SRC, proto))
      requires checks == [Look(dst, DST, proto), Look(src, SRC, proto)]
      modifies this`words, this`ruleWraps
      ensures Shaped(words, cpus)
      ensures var o := First(checks, View(old(words), cpu));
              Settled(o, cpu, deny, old(Now()), Now(), action)
    {
      FirstOfTwo(Look(dst, DST, proto), Look(src, SRC, proto), View(words, cpu));
      hide Settles, Proper, Shaped, First;
      var hit := CheckMap(cpu, dst, DST, proto);
      if hit {
        return HitAction(deny);
      }
      hit := CheckMap(cpu, src, SRC, proto);
      if hit {
        return HitAction(deny);
      }
      return MissAction(deny);
    }

    /** The transport header at the cursor. */
    method DecideTransport(cpu: nat, pkt: Packet, nh: Cursor, proto: nat) returns (action: nat)
      requires Shaped(words, cpus) && cpu < cpus
      modifies this`words, this`ruleWraps, nh
      ensures Shaped(words, cpus)
      ensures var o := First(TransportChecks(features, pkt, old(nh.pos), proto), View(old(words), cpu));
              Settled(o, cpu, deny, old(Now()), Now(), action)
    {
      ghost var before, rules := Now(), View(words, cpu);
      Singletons(rules);
      SettledUnchanged(cpu, deny, before);
      hide Shaped, Settled, First;
      var h := nh.pos;
      action := MissAction(deny);
      if Udp in features && proto == IPPROTO_UDP {
        var len := ParseUdpHdr(pkt, nh);
        if len < 0 {
          return XDP_ABORTED;
        }
        action := LookupVerdict(cpu, Port(Be16(pkt, h + 2)), Port(Be16(pkt, h)), Some(UDP), PortChecks(pkt, h, UDP));
        if action != MissAction(deny) {
          return;
        }
      }
      if Tcp in features && proto == IPPROTO_TCP {
        var len := ParseTcpHdr(pkt, nh);
        if len < 0 {
          return XDP_ABORTED;
        }
        action := LookupVerdict(cpu, Port(Be16(pkt, h + 2)), Port(Be16(pkt, h)), Some(TCP), PortChecks(pkt, h, TCP));
        if action != MissAction(deny) {
          return;
        }
      }
    }

    /** The IPv4 header at the cursor. */
    method DecideIpv4(cpu: nat, pkt: Packet, nh: Cursor) returns (action: nat)
      requires Shaped(words, cpus) && cpu < cpus
      modifies this`words, this`ruleWraps, nh
      ensures Shaped(words, cpus)
      ensures var o := First(NetworkChecks(features, pkt, ETH_P_IP, old(nh.pos)), View(old(words), cpu));
              Settled(o, cpu, deny, old(Now()), Now(), action)
    {
      hide Shaped, TransportChecks, First, NetworkChecks, View, Addr4Checks, Settled, Proper;
      ghost var before, rules := Now(), View(words, cpu);
      NetworkVerdict(features, pkt, ETH_P_IP, nh.pos, rules);
      SettledUnchanged(cpu, deny, before);
      var ip := nh.pos;
      var ipType := ParseIpHdr(pkt, nh);
      if ipType < 0 {
        return XDP_ABORTED;
      }
      if Ipv4 in features {
        Addr4ChecksAre(pkt, ip);
        action := LookupVerdict(cpu, Addr4(pkt[ip + 16..ip + 20]), Addr4(pkt[ip + 12..ip + 16]), None,
                                Addr4Checks(pkt, ip));
        SettledMiss(First(Addr4Checks(pkt, ip), rules), cpu, deny, before, Now(), action);
        if action != MissAction(deny) {
          return;
        }
      }
      action := DecideTransport(cpu, pkt, nh, ipType);
    }

    /** The IPv6 header at the cursor. */
    method DecideIpv6(cpu: nat, pkt: Packet, nh: Cursor) returns (action: nat)
      requires Shaped(words, cpus) && cpu < cpus
      modifies this`words, this`ruleWraps, nh
      ensures Shaped(words, cpus)
      ensures var o := First(NetworkChecks(features, pkt, ETH_P_IPV6, old(nh.pos)), View(old(words), cpu));
              Settled(o, cpu, deny, old(Now()), Now(), action)
    {
      hide Shaped, TransportChecks, First, NetworkChecks, View, Addr6Checks, Settled, Proper;
      ghost var before, rules := Now(), View(words, cpu);
      NetworkVerdict(features, pkt, ETH_P_IPV6, nh.pos, rules);
      SettledUnchanged(cpu, deny, before);
      var ip := nh.pos;
      var ipType := ParseIp6Hdr(pkt, nh);
      if ipType < 0 {
        return XDP_ABORTED;
      }
      if Ipv6 in features {
        Addr6ChecksAre(pkt, ip);
        action := LookupVerdict(cpu, Addr6(pkt[ip + 24..ip + 40]), Addr6(pkt[ip + 8..ip + 24]), None,
                                Addr6Checks(pkt, ip));
        SettledMiss(First(Addr6Checks(pkt, ip), rules), cpu, deny, before, Now(), action);
        if action != MissAction(deny) {
          return;
        }
      }
      action := DecideTransport(cpu, pkt, nh, ipType);
    }

    /** The network header at the cursor. */
    method DecideNetwork(cpu: nat, pkt: Packet, nh: Cursor, etherType: nat) returns (action: nat)
      requires Shaped(words, cpus) && cpu < cpus
      modifies this`words, this`ruleWraps, nh
      ensures Shaped(words, cpus)
      ensures var o := First(NetworkChecks(features, pkt, etherType, old(nh.pos)), View(old(words), cpu));
              Settled(o, cpu, deny, old(Now()), Now(), action)
    {
      if etherType == ETH_P_IP {
        action := DecideIpv4(cpu, pkt, nh);
      } else if etherType == ETH_P_IPV6 {
        action := DecideIpv6(cpu, pkt, nh);
      } else {
        NetworkVerdict(features, pkt, etherType, nh.pos, View(words, cpu));
        SettledUnchanged(cpu, deny, Now());
        hide First, NetworkChecks, Settled;
        action := MissAction(deny);
      }
    }

    /** The program up to the out label. */
    method Decide(cpu: nat, pkt: Packet) returns (action: nat)
      requires Shaped(words, cpus) && cpu < cpus
      modifies this`words, this`ruleWraps
      ensures Shaped(words, cpus)
      ensures Settled(Verdict(features, pkt, View(old(words), cpu)), cpu, deny, old(Now()), Now(), action)
    {
      ghost var before, rules := Now(), View(words, cpu);
      WholeVerdict(features, pkt, rules);
      SettledUnchanged(cpu, deny, before);
      hide Shaped, First, NetworkChecks, SkipsTags, Verdict, View, MacChecks, Settled;
      var nh := new Cursor(0);
      var etherType := ParseEthHdr(pkt, nh);
      if etherType < 0 {
        return XDP_ABORTED;
      }
      action := MissAction(deny);
      if Ethernet in features {
        MacChecksAre(pkt);
        action := LookupVerdict(cpu, Mac(pkt[0..6]), Mac(pkt[6..12]), None, MacChecks(pkt));
        SettledMiss(First(MacChecks(pkt), rules), cpu, deny, before, Now(), action);
        if action != MissAction(deny) {
          return;
        }
      }
      if features <= {Ethernet} {
        return;
      }
      action := DecideNetwork(cpu, pkt, nh, etherType);
    }

    /** xdp_stats_record_action() */
    method RecordAction(cpu: nat, action: nat, len: nat) returns (r: nat)
      requires Stats() && cpu < cpus && action < XDP_ACTION_MAX
      modifies this`packets, this`bytes, this`packetWraps, this`hitWraps
      ensures Stats() && r == action
      ensures packets == Stored(old(packets), action, cpu, (Rx(old(packets), action, cpu) + 1) % WORD)
      ensures bytes == Stored(old(bytes), action, cpu, (Rx(old(bytes), action, cpu) + len) % WORD)
      ensures var wraps := Rx(old(packets), action, cpu) + 1 >= WORD;
              && packetWraps == old(packetWraps) + One(wraps)
              && hitWraps == old(hitWraps) + One(wraps && action == HitAction(deny))
    {
      assert Row(packets[action], cpus) && Row(bytes[action], cpus);
      var count, total := packets[action][cpu], bytes[action][cpu];
      StoredShaped(packets, cpus, action, cpu, (count + 1) % WORD);
      StoredShaped(bytes, cpus, action, cpu, (total + len) % WORD);
      packetWraps := packetWraps + One(count + 1 >= WORD);
      hitWraps := hitWraps + One(count + 1 >= WORD && action == HitAction(deny));
      hide Stored, StatsShaped;
      packets := Stored(packets, action, cpu, (count + 1) % WORD);
      bytes := Stored(bytes, action, cpu, (total + len) % WORD);
      return action;
    }

    /** One packet on one CPU. */
    method Run(cpu: nat, pkt: Packet) returns (action: nat)
      requires Valid() && cpu < cpus
      modifies this
      ensures Valid() && processed == old(processed) + 1 && forgotten == old(forgotten)
      ensures var o := Verdict(features, pkt, View(old(words), cpu));
              && action == ActionOf(o, deny) && words == After(old(words), o, cpu)
              && ruleWraps == old(ruleWraps) + One(Wraps(old(words), o, cpu))
      ensures var wraps := Rx(old(packets), action, cpu) + 1 >= WORD;
              && packetWraps == old(packetWraps) + One(wraps)
              && hitWraps == old(hitWraps) + One(wraps && action == HitAction(deny))
      ensures packets == Stored(old(packets), action, cpu, (Rx(old(packets), action, cpu) + 1) % WORD)
      ensures bytes == Stored(old(bytes), action, cpu, (Rx(old(bytes), action, cpu) + |pkt|) % WORD)
    {
      hide Verdict, View, Sum, First, Hits, After, Total, Recorded, Stored, StatsShaped, Wraps, ActionOf, Rx, Shaped;
      ghost var o := Verdict(features, pkt, View(words, cpu));
      Conserves(cpu, pkt, o);
      action := Decide(cpu, pkt);
      action := RecordAction(cpu, action, |pkt|);
      processed := processed + 1;
    }

    lemma Conserves(cpu: nat, pkt: Packet, o: Outcome)
      requires Valid() && cpu < cpus && o == Verdict(features, pkt, View(words, cpu))
      ensures ActionOf(o, deny) < XDP_ACTION_MAX
      ensures OneMore(words, o, cpu, deny, packets)
    {
      hide Verdict, View, Hits, After, Total, Recorded, Stored, StatsShaped, Wraps, Shaped, Rx, OneMore, OneMorePacket;
      HitKeyExists(features, pkt, View(words, cpu));
      ViewKeys(words, cpu);
      ConservedStep(words, cpus, o, cpu, deny, packets);
    }

    /** Until counters wrap the laws are equations; in any case they hold modulo the counters. */
    lemma ConservedModulo()
      requires Valid()
      ensures Recorded(packets) % WORD == processed % WORD
      ensures (Hits(words) + forgotten) % COUNTER_LIMIT == Total(packets, HitAction(deny)) % COUNTER_LIMIT
      ensures packetWraps == 0 ==> Recorded(packets) == processed
      ensures ruleWraps == hitWraps == 0 ==> Hits(words) + forgotten == Total(packets, HitAction(deny))
    {
      hide Recorded, Hits, Total, Shaped, StatsShaped;
      assert WORD == 64 * COUNTER_LIMIT;
      WordsAway(Recorded(packets), packetWraps);
      CountersAway(Hits(words) + forgotten, ruleWraps);
      CountersAway(Total(packets, HitAction(deny)), 64 * hitWraps);
    }

    // -------------------------------------------------------------------------
    // The command line tool

    /** The packets that arrive while the tool is between two system calls. */
    method RunAll(between: seq<(nat, Packet)>)
      requires Valid() && forall p | p in between :: p.0 < cpus
      modifies this
      ensures Valid() && processed == old(processed) + |between| && forgotten == old(forgotten)
      ensures words == AfterAll(features, old(words), between)
    {
      hide Hits, After, Verdict, View, Conserved, Shaped, StatsShaped;
      assert between[..0] == [];
      var i := 0;
      while i < |between|
        invariant 0 <= i <= |between| && Valid() && processed == old(processed) + i && forgotten == old(forgotten)
        invariant words == AfterAll(features, old(words), between[..i])
      {
        var p := between[i];
        assert p in between && between[..i + 1][..i] == between[..i];
        var _ := Run(p.0, p.1);
        i := i + 1;
      }
      assert between[..i] == between;
    }

    /** map_set_flags(): a nonzero flag byte replaces the flags on every CPU and keeps the counts it
        read, zero empties or deletes the rule. `between` arrives after the lookup; the last system
        call fails when `fails`. */
    method SetFlags(key: Key, flags: nat, deleteEmpty: bool, between: seq<(nat, Packet)>, fails: bool)
        returns (ok: bool)
      requires Valid() && flags < 256 && forall p | p in between :: p.0 < cpus
      modifies this
      ensures Valid() && processed == old(processed) + |between| && ok == !fails
      ensures var mid := AfterAll(features, old(words), between);
              var seen := if key in old(words) then old(words)[key] else seq(cpus, _ => 0);
              && (!ok ==> words == mid && forgotten == old(forgotten))
              && (ok ==> EditResult(mid, words, key, flags, deleteEmpty && key in old(words), seen))
              && forgotten == old(forgotten) + CountOf(mid, key) - CountOf(words, key)
    {
      hide Hits, Shaped, CountOf, AfterAll, EditResult, Conserved, Edited, StatsShaped;
      ghost var words0 := words;
      var found := key in words;
      var values: seq<nat> := if found then words[key] else seq(cpus, _ => 0);
      ReadShaped(words, cpus, key);
      RunAll(between);
      SameKeys(features, words0, between);
      if fails {
        return false;
      }
      if found && flags == 0 && deleteEmpty {
        DeleteRule(key, values);
      } else {
        StoreRule(key, flags, values, deleteEmpty && found);
      }
      return true;
    }

    /** bpf_map_delete_elem() */
    method DeleteRule(key: Key, ghost seen: seq<nat>)
      requires Valid()
      modifies this`words, this`forgotten
      ensures Valid() && EditResult(old(words), words, key, 0, true, seen)
      ensures forgotten == old(forgotten) + CountOf(old(words), key) - CountOf(words, key)
    {
      HitsRemove(words, key);
      ShapedRemove(words, cpus, key);
      hide Hits, Shaped, CountOf, StatsShaped;
      forgotten := forgotten + CountOf(words, key) - CountOf(words - {key}, key);
      words := words - {key};
    }

    /** bpf_map_update_elem() with the words that were read, rewritten. */
    method StoreRule(key: Key, flags: nat, values: seq<nat>, ghost delete: bool)
      requires Valid() && RuleShaped(values, cpus) && (flags != 0 || !delete)
      modifies this`words, this`forgotten
      ensures Valid() && EditResult(old(words), words, key, flags, delete, values)
      ensures forgotten == old(forgotten) + CountOf(old(words), key) - CountOf(words, key)
    {
      hide Hits, Edited, Shaped, CountOf, StatsShaped, EditResult, RuleShaped;
      var after := RewriteFlags(values, flags);
      assert |values| == cpus by {
        RuleLength(values, cpus);
      }
      EditedRule(words, cpus, key, values, after, flags, delete);
      forgotten := forgotten + CountOf(words, key) - CountOf(words[key := after], key);
      words := words[key := after];
    }

    /** map_get_counter_flags(): the counts of all CPUs together, and the flags they share. */
    method GetCounterFlags(key: Key) returns (r: Option<(nat, nat)>)
      requires Valid() && cpus > 0
      ensures r.Some? <==> key in words && FilterCounters.Flags(words[key][0]) != 0
      ensures r.Some? ==> r.value.0 == Sum(Counts(words[key])) % WORD
      ensures r.Some? ==> forall i | 0 <= i < cpus :: FilterCounters.Flags(words[key][i]) == r.value.1
    {
      if key !in words {
        return None;
      }
      var values := words[key];
      ghost var shared := FilterCounters.Flags(values[0]);
      assert |values| == cpus && forall j | 0 <= j < cpus :: FilterCounters.Flags(values[j]) == shared;
      hide Shaped, Hits, Sum, FilterCounters.Flags, Count;
      var sum := 0;
      var flags := 0;
      var i := 0;
      NoSum();
      while i < cpus
        invariant 0 <= i <= cpus
        invariant i > 0 ==> flags == shared && flags != 0
        invariant sum == Sum(Counts(values)[..i]) % WORD
      {
        var flg := FilterCounters.Flags(values[i]);
        if flg == 0 {
          return None;
        }
        flags := flg;
        SumSoFar(values, i);
        sum := (sum + Count(values[i])) % WORD;
        i := i + 1;
      }
      assert Counts(values)[..cpus] == Counts(values);
      return Some((sum, flags));
    }
  }

  lemma SumSoFar(values: seq<nat>, i: nat)
    requires i < |values|
    ensures |Counts(values)| == |values|
    ensures (Sum(Counts(values)[..i]) % WORD + Count(values[i])) % WORD == Sum(Counts(values)[..i + 1]) % WORD
  {
    hide Count, Sum;
    SumAppend(Counts(values)[..i], Count(values[i]));
    assert Counts(values)[..i + 1] == Counts(values)[..i] + [Count(values[i])];
    AddModulo(Sum(Counts(values)[..i]), Count(values[i]));
  }

  lemma AddModulo(s: nat, c: nat)
    ensures (s % WORD + c) % WORD == (s + c) % WORD
  {
  }

  lemma NoSum()
    ensures Sum([]) == 0
  {
  }

  lemma WordsAway(a: int, k: nat)
    ensures (a + k * WORD) % WORD == a % WORD
  {
  }

  lemma CountersAway(a: int, k: nat)
    ensures (a + k * COUNTER_LIMIT) % COUNTER_LIMIT == a % COUNTER_LIMIT
  {
  }

  /** One packet more, up to the counters that wrap, in the statistics and under the hit action. */
  ghost predicate OneMorePacket(a: nat, cpu: nat, hit: nat, packets: seq<seq<nat>>) {
    var wraps := Rx(packets, a, cpu) + 1 >= WORD;
    var after := Stored(packets, a, cpu, (Rx(packets, a, cpu) + 1) % WORD);
    && Recorded(after) + One(wraps) * WORD == Recorded(packets) + 1
    && Total(after, hit) + One(wraps && a == hit) * WORD == Total(packets, hit) + One(a == hit)
  }

  /** The same, and one hit more in the rules. */
  ghost predicate OneMore(words: map<Key, seq<nat>>, o: Outcome, cpu: nat, deny: bool, packets: seq<seq<nat>>) {
    && OneMorePacket(ActionOf(o, deny), cpu, HitAction(deny), packets)
    && (ActionOf(o, deny) == HitAction(deny) <==> o.Hit?)
    && Hits(After(words, o, cpu)) + One(Wraps(words, o, cpu)) * COUNTER_LIMIT == Hits(words) + One(o.Hit?)
  }

  lemma StatsStep(a: nat, cpu: nat, hit: nat, packets: seq<seq<nat>>, cpus: nat)
    requires StatsShaped(packets, cpus) && a < XDP_ACTION_MAX && cpu < cpus
    ensures OneMorePacket(a, cpu, hit, packets)
  {
    assert Row(packets[a], cpus);
    var v := Rx(packets, a, cpu) + 1;
    assert v <= WORD;
    StoredTotals(packets, a, cpu, v % WORD);
    hide Total, Recorded, Stored, StatsShaped, Rx;
    if v == WORD {
      assert v % WORD == 0;
    } else {
      assert v % WORD == v;
    }
  }

  lemma ConservedStep(words: map<Key, seq<nat>>, cpus: nat, o: Outcome, cpu: nat, deny: bool, packets: seq<seq<nat>>)
    requires Shaped(words, cpus) && cpu < cpus && (o.Hit? ==> o.key in words) && StatsShaped(packets, cpus)
    ensures OneMore(words, o, cpu, deny, packets)
  {
    hide Hits, After, Shaped, Wraps, OneMorePacket, StatsShaped;
    HitsAfter(words, cpus, o, cpu);
    StatsStep(ActionOf(o, deny), cpu, HitAction(deny), packets, cpus);
  }

  lemma HitsAfter(words: map<Key, seq<nat>>, cpus: nat, o: Outcome, cpu: nat)
    requires Shaped(words, cpus) && cpu < cpus && (o.Hit? ==> o.key in words)
    ensures Hits(After(words, o, cpu)) + One(Wraps(words, o, cpu)) * COUNTER_LIMIT == Hits(words) + One(o.Hit?)
  {
    hide Hits, Bump;
    if o.Hit? {
      HitCounts(words, o.key, cpu);
    }
  }

  /** Under any number of packets, a rule counts the packets that hit it, up to wraps. */
  lemma {:induction false} RuleCountsHits(fs: set<Feature>, words: map<Key, seq<nat>>, cpus: nat, pkts: seq<(nat, Packet)>,
                                          key: Key)
    requires Shaped(words, cpus) && forall p | p in pkts :: p.0 < cpus
    ensures Shaped(AfterAll(fs, words, pkts), cpus)
    ensures var (hits, wraps) := HitsOn(fs, words, pkts, key);
            CountOf(AfterAll(fs, words, pkts), key) + wraps * COUNTER_LIMIT == CountOf(words, key) + hits
  {
    hide Verdict, View, CountOf, Shaped, After, Wraps;
    if pkts != [] {
      var before := pkts[..|pkts| - 1];
      var mid := AfterAll(fs, words, before);
      var (cpu, pkt) := pkts[|pkts| - 1];
      var o := Verdict(fs, pkt, View(mid, cpu));
      assert pkts[|pkts| - 1] in pkts;
      RuleCountsHits(fs, words, cpus, before, key);
      HitKeyExists(fs, pkt, View(mid, cpu));
      ViewKeys(mid, cpu);
      RuleAfter(mid, cpus, o, cpu, key);
    }
  }

  lemma RuleAfter(words: map<Key, seq<nat>>, cpus: nat, o: Outcome, cpu: nat, key: Key)
    requires Shaped(words, cpus) && cpu < cpus && (o.Hit? ==> o.key in words)
    ensures Shaped(After(words, o, cpu), cpus)
    ensures CountOf(After(words, o, cpu), key) + One(o == Hit(key) && Wraps(words, o, cpu)) * COUNTER_LIMIT ==
            CountOf(words, key) + One(o == Hit(key))
  {
    if o.Hit? {
      BumpShaped(words, cpus, o.key, cpu);
      if o.key == key {
        RuleCounts(words[key], cpu);
      }
    }
  }

  lemma ViewKeys(words: map<Key, seq<nat>>, cpu: nat)
    ensures forall k | k in View(words, cpu) :: k in words
  {
  }

  lemma Singletons(rules: Rules)
    ensures First([], rules) == Miss && First([Malformed], rules) == Abort
  {
  }

  /** A hit names a rule that is there. */
  lemma HitKeyExists(fs: set<Feature>, pkt: Packet, rules: Rules)
    ensures Verdict(fs, pkt, rules).Hit? ==> Verdict(fs, pkt, rules).key in rules
  {
    HitIsThere(Checks(fs, pkt), rules);
  }

  lemma {:induction false} HitIsThere(cs: seq<Check>, rules: Rules)
    requires forall c | c in cs :: Proper(c)
    ensures First(cs, rules).Hit? ==> First(cs, rules).key in rules
  {
    if cs != [] {
      if !Settles(cs[0], rules) {
        HitIsThere(cs[1..], rules);
      } else if cs[0].Look? {
        assert Proper(cs[0]);
        NoFlagsNoMatch(Mask(cs[0].direction, cs[0].proto));
      }
    }
  }
}
