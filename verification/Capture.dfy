/** xdpdump writing a PcapNG file: the interfaces at the front, then one packet block per
    accepted perf event (xdp-dump/xdpdump.c). */
module Capture {
  import opened Common
  import opened PcapNgFormat
  import opened PcapNgWriter
  import PcapNgInterface
  import opened PcapNgPacket
  import opened PcapNgDumper
  import opened CaptureLog

  // ---------------------------------------------------------------------------
  // Interfaces

  /** ifname:func()@fentry and ifname:func()@fexit */
  function InterfaceName(ifname: seq<byte>, func: seq<byte>, fexit: bool): seq<byte> {
    ifname + [58] + func +
    if fexit then [40, 41, 64, 102, 101, 120, 105, 116] else [40, 41, 64, 102, 101, 110, 116, 114, 121]
  }

  datatype Device = Device(ifname: seq<byte>, speed: nat, driver: seq<byte>, snapLen: nat)

  function FieldsOf(d: Device, func: seq<byte>, fexit: bool): PcapNgInterface.Fields {
    PcapNgInterface.Fields(Some(InterfaceName(d.ifname, func, fexit)), None, None, d.speed, 9, Some(d.driver))
  }

  ghost function InterfaceBlock(d: Device, func: seq<byte>, fexit: bool): (b: Block)
    ensures b.Idb?
  {
    Idb(1, d.snapLen % 0x1_0000, PcapNgInterface.IdbOpts(FieldsOf(d, func, fexit)))
  }

  ghost function InterfaceBlocks(d: Device, funcs: seq<seq<byte>>): seq<Block> {
    if funcs == [] then []
    else
      var func := funcs[|funcs| - 1];
      InterfaceBlocks(d, funcs[..|funcs| - 1]) + [InterfaceBlock(d, func, false), InterfaceBlock(d, func, true)]
  }

  /** The file takes the block. */
  ghost predicate Taken(d: Device, func: seq<byte>, fexit: bool, room: nat) {
    room >= PcapNgInterface.IdbLength(FieldsOf(d, func, fexit))
  }

  /** The name fits its buffer, and the file takes the block. */
  ghost predicate Added(d: Device, func: seq<byte>, fexit: bool, room: nat) {
    |InterfaceName(d.ifname, func, fexit)| < 128 && Taken(d, func, fexit, room)
  }

  /** try_snprintf() and xpcapng_dump_add_interface() for one direction; the file takes at most `room`
      bytes. */
  method AddInterface(dumper: Dumper, d: Device, func: seq<byte>, fexit: bool, room: nat) returns (ok: bool)
    requires d.speed < TWO_64 && |d.driver| < 260
    modifies dumper
    ensures ok <==> Added(d, func, fexit, room)
    ensures ok ==> dumper.blocks == old(dumper.blocks) + [InterfaceBlock(d, func, fexit)]
    ensures Taken(d, func, fexit, room) && old(dumper.Readable()) ==> dumper.Readable()
  {
    if |InterfaceName(d.ifname, func, fexit)| >= 128 {
      return false;
    }
    hide PcapNgInterface.IdbOpts, PcapNgInterface.IdbLength, InterfaceName, ParseFile, Described;
    var id := dumper.AddInterface(d.snapLen, FieldsOf(d, func, fexit), room);
    return id >= 0;
  }

  ghost predicate BothTaken(d: Device, func: seq<byte>, rooms: (nat, nat)) {
    Taken(d, func, false, rooms.0) && Taken(d, func, true, rooms.1)
  }

  /** Both interfaces of a program are added. */
  ghost predicate BothAdded(d: Device, func: seq<byte>, rooms: (nat, nat)) {
    Added(d, func, false, rooms.0) && Added(d, func, true, rooms.1)
  }

  /** add_interfaces_to_pcapng(): two interfaces per traced program, or failure as soon as a
      name is too long or a write is not complete. */
  method AddInterfaces(dumper: Dumper, d: Device, funcs: seq<seq<byte>>, rooms: seq<(nat, nat)>) returns (ok: bool)
    requires d.speed < TWO_64 && |d.driver| < 260 && |rooms| == |funcs|
    modifies dumper
    ensures ok <==> forall i | 0 <= i < |funcs| :: BothAdded(d, funcs[i], rooms[i])
    ensures ok ==> dumper.blocks == old(dumper.blocks) + InterfaceBlocks(d, funcs)
    ensures old(dumper.Readable()) && (forall i | 0 <= i < |funcs| :: BothTaken(d, funcs[i], rooms[i])) ==> dumper.Readable()
  {
    hide ParseFile, Described, InterfaceBlock, InterfaceName, Taken;
    var i := 0;
    while i < |funcs|
      invariant 0 <= i <= |funcs|
      invariant forall k | 0 <= k < i :: BothAdded(d, funcs[k], rooms[k])
      invariant dumper.blocks == old(dumper.blocks) + InterfaceBlocks(d, funcs[..i])
      invariant old(dumper.Readable()) && (forall k | 0 <= k < i :: BothTaken(d, funcs[k], rooms[k])) ==> dumper.Readable()
    {
      ok := AddInterface(dumper, d, funcs[i], false, rooms[i].0);
      assert !ok ==> !BothAdded(d, funcs[i], rooms[i]);
      if !ok {
        return false;
      }
      ok := AddInterface(dumper, d, funcs[i], true, rooms[i].1);
      assert !ok ==> !BothAdded(d, funcs[i], rooms[i]);
      if !ok {
        return false;
      }
      assert funcs[..i + 1][..i] == funcs[..i];
      i := i + 1;
    }
    assert funcs[..|funcs|] == funcs;
    return true;
  }

  lemma {:induction false} InterfaceBlockAt(d: Device, funcs: seq<seq<byte>>, i: nat, fexit: bool)
    requires i < |funcs|
    ensures |InterfaceBlocks(d, funcs)| == 2 * |funcs|
    ensures InterfaceBlocks(d, funcs)[2 * i + if fexit then 1 else 0] == InterfaceBlock(d, funcs[i], fexit)
  {
    hide InterfaceBlock;
    if i < |funcs| - 1 {
      InterfaceBlockAt(d, funcs[..|funcs| - 1], i, fexit);
    } else if |funcs| > 1 {
      InterfaceBlockAt(d, funcs[..|funcs| - 1], 0, fexit);
    }
  }

  lemma TwoMoreInterfaces(bs: seq<Block>, a: Block, b: Block)
    requires a.Idb? && b.Idb?
    ensures Described(bs + [a, b]) == Described(bs) + [a, b]
    ensures Resolved(bs + [a, b]) == Resolved(bs)
  {
    AppendBlock(bs, a);
    AppendBlock(bs + [a], b);
    assert bs + [a, b] == bs + [a] + [b];
  }

  lemma {:induction false} DescribedInterfaces(bs: seq<Block>, d: Device, funcs: seq<seq<byte>>)
    ensures Described(bs + InterfaceBlocks(d, funcs)) == Described(bs) + InterfaceBlocks(d, funcs)
    ensures Resolved(bs) ==> Resolved(bs + InterfaceBlocks(d, funcs))
  {
    hide InterfaceBlock, Described, Resolved;
    var all := InterfaceBlocks(d, funcs);
    if funcs == [] {
      assert bs + all == bs;
    } else {
      var init, func := funcs[..|funcs| - 1], funcs[|funcs| - 1];
      var before := InterfaceBlocks(d, init);
      var pair := [InterfaceBlock(d, func, false), InterfaceBlock(d, func, true)];
      assert all == before + pair;
      hide InterfaceBlocks;
      DescribedInterfaces(bs, d, init);
      TwoMoreInterfaces(bs + before, pair[0], pair[1]);
      assert bs + all == bs + before + pair;
    }
  }

  lemma FrontOfFile(d: Device, shb: Block, funcs: seq<seq<byte>>)
    requires shb.Shb?
    ensures Resolved([shb] + InterfaceBlocks(d, funcs))
    ensures Described([shb] + InterfaceBlocks(d, funcs)) == InterfaceBlocks(d, funcs)
  {
    AppendBlock([], shb);
    assert [] + [shb] == [shb];
    assert Described([]) == [] && Resolved([]);
    hide InterfaceBlocks, Described, Resolved;
    DescribedInterfaces([shb], d, funcs);
    assert [] + InterfaceBlocks(d, funcs) == InterfaceBlocks(d, funcs);
  }

  /** A sample is filed under the interface named after its program and direction. */
  lemma SamplesUseTheirInterface(u: Setup, d: Device, shb: Block, es: seq<Event>, e: Event)
    requires AllInWidth(es) && shb.Shb? && Accepted(u, e)
    ensures var bs := [shb] + InterfaceBlocks(d, u.funcs) + Emitted(u, es);
            && Resolved(bs) && |Described(bs)| == 2 * |u.funcs|
            && InterfaceOf(e) < 2 * |u.funcs|
            && Described(bs)[InterfaceOf(e)] == InterfaceBlock(d, u.funcs[e.progIndex], e.fexit)
            && (d.speed < 0x1_0000_0000_0000_0000 ==>
                  Describes(d, u.funcs[e.progIndex], e.fexit, Described(bs)[InterfaceOf(e)]))
  {
    hide InterfaceBlocks, InterfaceBlock, Emitted, Described, Resolved, Describes;
    if d.speed < 0x1_0000_0000_0000_0000 {
      BlockDescribes(d, u.funcs[e.progIndex], e.fexit);
    }
    FrontOfFile(d, shb, u.funcs);
    InterfaceBlockAt(d, u.funcs, e.progIndex, e.fexit);
    CaptureResolves(u, [shb] + InterfaceBlocks(d, u.funcs), es);
  }

  predicate Plain(s: string) {
    forall i | 0 <= i < |s| :: s[i] as int < 256
  }

  /** The bytes of a text. */
  function Ascii(s: string): seq<byte>
    requires Plain(s)
  {
    seq(|s|, i requires 0 <= i < |s| => s[i] as int)
  }

  /** An interface is named after the device, the traced function and the direction. */
  lemma NamedAfter(ifname: string, func: string)
    requires Plain(ifname) && Plain(func)
    ensures Plain(ifname + ":" + func + "()@fentry") && Plain(ifname + ":" + func + "()@fexit")
    ensures InterfaceName(Ascii(ifname), Ascii(func), false) == Ascii(ifname + ":" + func + "()@fentry")
    ensures InterfaceName(Ascii(ifname), Ascii(func), true) == Ascii(ifname + ":" + func + "()@fexit")
  {
    assert Plain(":" + func);
    NameText(Ascii(ifname), Ascii(func));
    assert Ascii(ifname + ":" + func + "()@fentry") == Ascii(ifname) + [58] + Ascii(func) + Ascii("()@fentry");
    assert Ascii(ifname + ":" + func + "()@fexit") == Ascii(ifname) + [58] + Ascii(func) + Ascii("()@fexit");
  }

  lemma NameText(ifname: seq<byte>, func: seq<byte>)
    ensures InterfaceName(ifname, func, false) == ifname + [58] + func + Ascii("()@fentry")
    ensures InterfaceName(ifname, func, true) == ifname + [58] + func + Ascii("()@fexit")
  {
    assert Ascii("()@fentry") == [40, 41, 64, 102, 101, 110, 116, 114, 121];
    assert Ascii("()@fexit") == [40, 41, 64, 102, 101, 120, 105, 116];
  }

  /** Which option of an interface block carries what. */
  ghost function FieldOf(f: PcapNgInterface.Fields, code: nat): Option<seq<byte>> {
    if code == 2 then f.name
    else if code == 3 then f.description
    else if code == 6 then f.mac
    else if code == 8 then PcapNgInterface.Speed(f)
    else if code == 9 then PcapNgInterface.Resolution(f)
    else if code == 15 then f.hardware
    else None
  }

  lemma RegroupSix(a: seq<Opt>, b: seq<Opt>, c: seq<Opt>, d: seq<Opt>, e: seq<Opt>, f: seq<Opt>)
    ensures a + b + c + d + e + f == a + (b + (c + (d + (e + (f + [])))))
  {
    assert f + [] == f;
  }

  lemma IdbData(f: PcapNgInterface.Fields, code: nat)
    ensures DataOf(PcapNgInterface.IdbOpts(f), code) == FieldOf(f, code)
  {
    hide DataOf, OptOf, PcapNgInterface.Speed, PcapNgInterface.Resolution;
    var s, r := PcapNgInterface.Speed(f), PcapNgInterface.Resolution(f);
    var hs := OptOf(15, f.hardware) + [];
    var rs := OptOf(9, r) + hs;
    var ss := OptOf(8, s) + rs;
    var ms := OptOf(6, f.mac) + ss;
    var ds := OptOf(3, f.description) + ms;
    RegroupSix(OptOf(2, f.name), OptOf(3, f.description), OptOf(6, f.mac), OptOf(8, s), OptOf(9, r), OptOf(15, f.hardware));
    assert PcapNgInterface.IdbOpts(f) == OptOf(2, f.name) + ds;
    hide PcapNgInterface.IdbOpts;
    DataOfNext(2, f.name, ds, code);
    DataOfNext(3, f.description, ms, code);
    DataOfNext(6, f.mac, ss, code);
    DataOfNext(8, s, rs, code);
    DataOfNext(9, r, hs, code);
    DataOfNext(15, f.hardware, [], code);
    NothingHasNoData(code);
  }

  /** The block describes this direction of this program on the device: an Ethernet interface with nanosecond
      timestamps, the name, the driver, and the speed where it is known. */
  ghost predicate Describes(d: Device, func: seq<byte>, fexit: bool, b: Block) {
    && b.Idb? && b.linkType == 1 && b.snapLen < 0x1_0000 && (d.snapLen - b.snapLen) % 0x1_0000 == 0
    && DataOf(b.opts, 2) == Some(InterfaceName(d.ifname, func, fexit))
    && DataOf(b.opts, 3) == None && DataOf(b.opts, 6) == None
    && DataOf(b.opts, 9) == Some([9]) && DataOf(b.opts, 15) == Some(d.driver)
    && ValueOf(b.opts, 8) == d.speed && (DataOf(b.opts, 8).Some? <==> d.speed != 0)
  }

  lemma BlockDescribes(d: Device, func: seq<byte>, fexit: bool)
    requires d.speed < 0x1_0000_0000_0000_0000
    ensures Describes(d, func, fexit, InterfaceBlock(d, func, fexit))
  {
    hide DataOf, PcapNgInterface.IdbOpts, InterfaceName, FromLE, LE, Pow256;
    var f := FieldsOf(d, func, fexit);
    IdbData(f, 2);
    IdbData(f, 3);
    IdbData(f, 6);
    IdbData(f, 8);
    IdbData(f, 9);
    IdbData(f, 15);
    Pow256Values();
    LERoundTrip(d.speed, 8);
  }

  // ---------------------------------------------------------------------------
  // Events

  lemma EventFits(u: Setup, e: Event, pending: nat, id: nat)
    requires Accepted(u, e) && InWidth(e)
    requires pending < TWO_64 && id < TWO_64
    ensures PcapNgPacket.Wellformed(PacketOf(u, e), OptionsOf(e, pending, id))
    ensures EpbLength(PacketOf(u, e), OptionsOf(e, pending, id)) < TWO_32
  {
    var p, o := PacketOf(u, e), OptionsOf(e, pending, id);
    FixedSizes(o);
    RoundUp4Bound(|p.data|);
    hide Flags, Dropcount, PacketId, Queue, Verdict;
  }

  /** The last block a reader finds in the file tells of this event. */
  ghost predicate LastTells(u: Setup, e: Event, out: seq<byte>) {
    var bs := ParseFile(out);
    bs.Some? && bs.value != [] && Tells(u, e, bs.value[|bs.value| - 1])
  }

  /** struct perf_handler_ctx */
  class Context {
    const setup: Setup
    const dumper: Dumper
    const cpuPacketId: array<nat>
    var missed: nat
    var lastMissed: nat
    var captured: nat
    var packetId: nat
    ghost var seen: seq<Event>
    /** Every write was complete. */
    ghost var intact: bool
    ghost const start: seq<Block>

    ghost predicate Counters()
      reads this, cpuPacketId
    {
      && cpuPacketId.Length == MAX_CPUS && AllInWidth(seen)
      && missed == LostIn(seen) % TWO_64 && lastMissed == Pending(setup, seen) % TWO_64
      && captured == Samples(setup, seen) % TWO_64 && packetId == Handed(setup, seen) % TWO_64
      && forall c | 0 <= c < MAX_CPUS :: cpuPacketId[c] == LastId(setup, seen, c) % TWO_64
    }

    /** The counters are those of the events seen, and, as long as every write was complete, the file
        holds what came before the capture followed by one block per accepted event. */
    ghost predicate Valid()
      reads this, cpuPacketId, dumper
    {
      Counters() && (intact ==> dumper.Readable() && dumper.blocks == start + Emitted(setup, seen))
    }

    constructor (u: Setup, d: Dumper)
      requires d.Readable()
      ensures Valid() && setup == u && dumper == d && seen == [] && intact && start == d.blocks && fresh(cpuPacketId)
    {
      setup := u;
      dumper := d;
      cpuPacketId := new nat[MAX_CPUS](_ => 0);
      missed := 0;
      lastMissed := 0;
      captured := 0;
      packetId := 0;
      seen := [];
      intact := true;
      start := d.blocks;
    }

    /** The packet id step: the slot of this CPU is renewed by the first sight of a packet. */
    method AssignId(e: Event)
      requires Counters() && Accepted(setup, e)
      modifies this`packetId, cpuPacketId
      ensures packetId == Handed(setup, seen + [e]) % TWO_64
      ensures forall c | 0 <= c < MAX_CPUS :: cpuPacketId[c] == LastId(setup, seen + [e], c) % TWO_64
    {
      assert (seen + [e])[..|seen|] == seen;
      if e.progIndex == 0 && (!e.fexit || setup.firstExitOnly) {
        packetId := (packetId + 1) % TWO_64;
        cpuPacketId[e.cpu] := packetId;
      }
    }

    /** The block written for a sample. */
    ghost function SampleLength(e: Event): nat
      requires Accepted(setup, e) && InWidth(e)
      reads this
    {
      EpbLength(PacketOf(setup, e), OptionsOf(e, Pending(setup, seen) % TWO_64, LastId(setup, seen + [e], e.cpu) % TWO_64))
    }

    /** PERF_RECORD_SAMPLE. The file takes at most `room` bytes of the block, and nobody looks whether
        it took them all. */
    method HandleSample(e: Event, room: nat)
      requires Valid() && InWidth(e) && Accepted(setup, e)
      modifies this, cpuPacketId, dumper
      ensures Valid() && seen == old(seen) + [e]
      ensures var whole := room >= old(SampleLength(e));
              && intact == (old(intact) && whole)
              && (intact ==> LastTells(setup, e, dumper.out))
              && (old(intact) && !whole && room == 0 ==> dumper.Readable() && dumper.blocks == old(dumper.blocks))
              && (old(intact) && !whole && room > 0 ==> ParseFile(dumper.out).None?)
    {
      hide LastId, Handed, Emitted, EpbLength, EpbOpts, PcapNgPacket.Wellformed, ParseFile, Described, PacketOf,
        LostIn, Pending, Samples, Accepted, InWidth;
      ghost var es := seen + [e];
      ghost var pending, id := Pending(setup, seen), LastId(setup, es, CpuOf(setup, e));
      Emits(setup, seen, e);
      BlockTells(setup, e, pending, id);
      Counts(setup, seen, e);
      EventFits(setup, e, pending % TWO_64, id % TWO_64);
      AssignId(e);
      var options := OptionsOf(e, lastMissed, cpuPacketId[CpuOf(setup, e)]);
      var ok := dumper.EnhancedPacket(PacketOf(setup, e), options, room);
      intact := intact && ok;
      lastMissed := 0;
      captured := (captured + 1) % TWO_64;
      seen := es;
      if intact {
        assert dumper.blocks[|dumper.blocks| - 1] == BlockOf(setup, e, pending, id);
      }
    }

    /** PERF_RECORD_LOST */
    method HandleLost(e: Event)
      requires Valid() && InWidth(e) && e.Lost?
      modifies this, cpuPacketId, dumper
      ensures Valid() && seen == old(seen) + [e] && intact == old(intact)
    {
      hide LastId, Handed, Emitted, ParseFile, Described, LostIn, Pending, Samples, InWidth;
      ghost var es := seen + [e];
      Skips(setup, seen, e);
      LossCounts(setup, seen, e);
      missed := (missed + e.count) % TWO_64;
      lastMissed := (lastMissed + e.count) % TWO_64;
      seen := es;
    }

    /** Any other record. */
    method SkipRecord(e: Event)
      requires Valid() && InWidth(e) && !e.Lost? && !Accepted(setup, e)
      modifies this`seen
      ensures Valid() && seen == old(seen) + [e]
    {
      hide LastId, Handed, Emitted, ParseFile, Described, LostIn, Pending, Samples, InWidth, Accepted;
      Skips(setup, seen, e);
      SkipCounts(setup, seen, e);
      seen := seen + [e];
    }

    /** handle_perf_event() */
    method HandleEvent(e: Event, room: nat)
      requires Valid() && InWidth(e)
      modifies this, cpuPacketId, dumper
      ensures Valid() && seen == old(seen) + [e]
      ensures intact == (old(intact) && (Accepted(setup, e) ==> room >= old(SampleLength(e))))
    {
      var rejected := !e.Sample? || e.cpu >= MAX_CPUS || e.headerSize < 40 || e.size < 20 + e.capLen ||
                      e.progIndex >= |setup.funcs|;
      assert rejected <==> !Accepted(setup, e);
      hide Accepted, InWidth, Counters, Emitted, ParseFile, Described;
      if e.Lost? {
        HandleLost(e);
      } else if rejected {
        SkipRecord(e);
      } else {
        HandleSample(e, room);
      }
    }
  }

  lemma Counts(u: Setup, es: seq<Event>, e: Event)
    requires Accepted(u, e)
    ensures Samples(u, es + [e]) % TWO_64 == (Samples(u, es) % TWO_64 + 1) % TWO_64
    ensures Pending(u, es + [e]) == 0 && LostIn(es + [e]) == LostIn(es)
  {
    assert (es + [e])[..|es|] == es;
    SumModulo(1, Samples(u, es));
  }

  function CpuOf(u: Setup, e: Event): (c: nat)
    requires Accepted(u, e)
    ensures c < MAX_CPUS && e.Sample? && c == e.cpu
  {
    e.cpu
  }

  lemma LossCounts(u: Setup, es: seq<Event>, e: Event)
    requires e.Lost?
    ensures Samples(u, es + [e]) == Samples(u, es)
    ensures LostIn(es + [e]) % TWO_64 == (LostIn(es) % TWO_64 + e.count) % TWO_64
    ensures Pending(u, es + [e]) % TWO_64 == (Pending(u, es) % TWO_64 + e.count) % TWO_64
  {
    assert (es + [e])[..|es|] == es;
    SumModulo(e.count, LostIn(es));
    SumModulo(e.count, Pending(u, es));
  }

  lemma SkipCounts(u: Setup, es: seq<Event>, e: Event)
    requires !e.Lost? && !Accepted(u, e)
    ensures Samples(u, es + [e]) == Samples(u, es) && LostIn(es + [e]) == LostIn(es)
    ensures Pending(u, es + [e]) == Pending(u, es)
  {
    assert (es + [e])[..|es|] == es;
  }

  lemma Skips(u: Setup, es: seq<Event>, e: Event)
    requires AllInWidth(es) && InWidth(e) && !Accepted(u, e)
    ensures AllInWidth(es + [e]) && Emitted(u, es + [e]) == Emitted(u, es) && Handed(u, es + [e]) == Handed(u, es)
    ensures forall c: nat :: LastId(u, es + [e], c) == LastId(u, es, c)
  {
    assert (es + [e])[..|es|] == es;
  }

  lemma Emits(u: Setup, es: seq<Event>, e: Event)
    requires AllInWidth(es) && InWidth(e) && Accepted(u, e)
    ensures AllInWidth(es + [e])
    ensures Emitted(u, es + [e]) == Emitted(u, es) + [BlockOf(u, e, Pending(u, es), LastId(u, es + [e], e.cpu))]
  {
    assert (es + [e])[..|es|] == es;
  }
}
