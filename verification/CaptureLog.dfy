/** What a capture means: functions of the stream of perf events alone
    (xdp-dump/xdpdump.c, handle_perf_event(), PcapNG mode). */
module CaptureLog {
  import opened Common
  import opened PcapNgFormat
  import opened PcapNgWriter
  import opened PcapNgPacket
  import opened PcapNgDumper

  const MAX_CPUS: nat := 256

  datatype Event =
    | Sample(cpu: nat, headerSize: nat, size: nat, time: nat, rxQueue: nat, pktLen: nat, capLen: nat, fexit: bool,
             progIndex: nat, action: int, packet: seq<byte>)
    | Lost(count: nat)
    | Other

  /** Field widths, and the bytes the kernel delivered behind the metadata. */
  predicate InWidth(e: Event) {
    match e
    case Sample(_, _, size, time, rxQueue, pktLen, capLen, _, progIndex, action, packet) =>
      && time < TWO_64 && rxQueue < TWO_32 && pktLen < 0x1_0000 && capLen < 0x1_0000 && progIndex < 0x1_0000
      && -0x8000_0000 <= action < 0x8000_0000 && size <= 20 + |packet|
    case Lost(count) => count < TWO_64
    case Other => true
  }

  /** The traced programs, whether the first is traced on exit only, and the options. */
  datatype Setup = Setup(funcs: seq<seq<byte>>, firstExitOnly: bool, snapLen: nat, epochDelta: nat)

  predicate Accepted(u: Setup, e: Event) {
    e.Sample? && e.cpu < 256 && e.headerSize >= 40 && e.size >= 20 + e.capLen && e.progIndex < |u.funcs|
  }

  /** The event is the first sight of a new packet. */
  predicate Hands(u: Setup, e: Event) {
    Accepted(u, e) && e.progIndex == 0 && (!e.fexit || u.firstExitOnly)
  }

  // ---------------------------------------------------------------------------
  // Counting along a stream

  ghost function LostIn(es: seq<Event>): nat {
    if es == [] then 0
    else LostIn(es[..|es| - 1]) + (var e := es[|es| - 1]; if e.Lost? then e.count else 0)
  }

  /** Lost since the last accepted sample. */
  ghost function Pending(u: Setup, es: seq<Event>): nat {
    if es == [] then 0
    else
      var e := es[|es| - 1];
      if Accepted(u, e) then 0 else Pending(u, es[..|es| - 1]) + (if e.Lost? then e.count else 0)
  }

  ghost function Samples(u: Setup, es: seq<Event>): nat {
    if es == [] then 0
    else Samples(u, es[..|es| - 1]) + if Accepted(u, es[|es| - 1]) then 1 else 0
  }

  ghost function Handed(u: Setup, es: seq<Event>): nat {
    if es == [] then 0
    else Handed(u, es[..|es| - 1]) + if Hands(u, es[|es| - 1]) then 1 else 0
  }

  /** The id of the packet last seen on a CPU, zero if there was none. */
  ghost function LastId(u: Setup, es: seq<Event>, cpu: nat): nat {
    if es == [] then 0
    else
      var e := es[|es| - 1];
      if Hands(u, e) && e.cpu == cpu then Handed(u, es) else LastId(u, es[..|es| - 1], cpu)
  }

  // ---------------------------------------------------------------------------
  // What is written

  function InterfaceOf(e: Event): nat
    requires e.Sample?
  {
    e.progIndex * 2 + if e.fexit then 1 else 0
  }

  function PacketOf(u: Setup, e: Event): Packet
    requires Accepted(u, e) && InWidth(e)
  {
    var cap := if e.capLen < u.snapLen then e.capLen else u.snapLen;
    Packet(InterfaceOf(e), (e.time + u.epochDelta) % TWO_64, e.pktLen, e.packet[..cap])
  }

  function OptionsOf(e: Event, dropped: nat, id: nat): Options
    requires e.Sample?
  {
    Options(1, dropped, Some(id), Some(e.rxQueue), if e.fexit then Some(e.action) else None, None)
  }

  ghost function BlockOf(u: Setup, e: Event, pending: nat, id: nat): Block
    requires Accepted(u, e) && InWidth(e)
  {
    var p := PacketOf(u, e);
    Epb(p.ifid, p.timestamp, p.len, p.data, EpbOpts(OptionsOf(e, pending % TWO_64, id % TWO_64)))
  }

  ghost predicate AllInWidth(es: seq<Event>) {
    forall e | e in es :: InWidth(e)
  }

  ghost function Emitted(u: Setup, es: seq<Event>): seq<Block>
    requires AllInWidth(es)
  {
    if es == [] then []
    else
      var before := es[..|es| - 1];
      var e := es[|es| - 1];
      if Accepted(u, e) then Emitted(u, before) + [BlockOf(u, e, Pending(u, before), LastId(u, es, e.cpu))]
      else Emitted(u, before)
  }

  // ---------------------------------------------------------------------------
  // Reading the numbers back

  /** The data of the first option with this code. */
  ghost function DataOf(opts: seq<Opt>, code: nat): Option<seq<byte>> {
    if opts == [] then None
    else if opts[0].code == code then Some(opts[0].data)
    else DataOf(opts[1..], code)
  }

  /** The number in that option, zero if there is none. */
  ghost function ValueOf(opts: seq<Opt>, code: nat): nat {
    var d := DataOf(opts, code);
    if d.Some? then FromLE(d.value) else 0
  }

  lemma DataOfNext(c: nat, d: Option<seq<byte>>, rest: seq<Opt>, code: nat)
    ensures DataOf(OptOf(c, d) + rest, code) == if d.Some? && c == code then d else DataOf(rest, code)
  {
    if d.None? {
      assert OptOf(c, d) + rest == rest;
    } else {
      assert (OptOf(c, d) + rest)[1..] == rest;
    }
  }

  /** Which option carries what. */
  ghost function Carried(o: Options, code: nat): Option<seq<byte>> {
    if code == 1 then o.comment
    else if code == 2 then Flags(o)
    else if code == 4 then Dropcount(o)
    else if code == 5 then PacketId(o)
    else if code == 6 then Queue(o)
    else if code == 7 then Verdict(o)
    else None
  }

  lemma Regroup(a: seq<Opt>, b: seq<Opt>, c: seq<Opt>, d: seq<Opt>, e: seq<Opt>, f: seq<Opt>)
    ensures a + (b + c + d + e + f) == a + (b + (c + (d + (e + (f + [])))))
  {
    assert f + [] == f;
    assert b + c + d + e + f == b + (c + (d + (e + f)));
  }

  lemma EpbData(o: Options, code: nat)
    ensures DataOf(EpbOpts(o), code) == Carried(o, code)
  {
    hide DataOf, Flags, Dropcount, PacketId, Queue, Verdict, OptOf;
    var vs := OptOf(7, Verdict(o)) + [];
    var qs := OptOf(6, Queue(o)) + vs;
    var ps := OptOf(5, PacketId(o)) + qs;
    var ds := OptOf(4, Dropcount(o)) + ps;
    var fs := OptOf(2, Flags(o)) + ds;
    Regroup(OptOf(1, o.comment), OptOf(2, Flags(o)), OptOf(4, Dropcount(o)), OptOf(5, PacketId(o)), OptOf(6, Queue(o)),
            OptOf(7, Verdict(o)));
    assert EpbOpts(o) == OptOf(1, o.comment) + fs;
    hide EpbOpts;
    DataOfNext(1, o.comment, fs, code);
    DataOfNext(2, Flags(o), ds, code);
    DataOfNext(4, Dropcount(o), ps, code);
    DataOfNext(5, PacketId(o), qs, code);
    DataOfNext(6, Queue(o), vs, code);
    DataOfNext(7, Verdict(o), [], code);
    NothingHasNoData(code);
  }

  lemma NothingHasNoData(code: nat)
    ensures DataOf([], code) == None
  {
  }

  /** A reader of the block finds the drop count and the packet id that were meant. */
  lemma NumbersReadBack(u: Setup, e: Event, pending: nat, id: nat)
    requires Accepted(u, e) && InWidth(e)
    ensures var opts := BlockOf(u, e, pending, id).opts;
            ValueOf(opts, 4) == pending % TWO_64 && ValueOf(opts, 5) == id % TWO_64
  {
    var dropped, last := pending % TWO_64, id % TWO_64;
    var o := OptionsOf(e, dropped, last);
    EpbData(o, 4);
    EpbData(o, 5);
    Pow256Values();
    LERoundTrip(dropped, 8);
    LERoundTrip(last, 8);
    hide FromLE, LE, EpbOpts, DataOf;
  }

  /** The block tells of this event: the captured bytes cut to the snap length, the length of the packet,
      the time it was seen, the interface of its program and direction, the queue, and, for an exit, the
      verdict of the program as a 64-bit number in two's complement behind the type byte. */
  ghost predicate Tells(u: Setup, e: Event, b: Block) {
    && e.Sample? && b.Epb?
    && |b.pkt| <= |e.packet| && b.pkt == e.packet[..|b.pkt|]
    && |b.pkt| <= e.capLen && |b.pkt| <= u.snapLen && (|b.pkt| == e.capLen || |b.pkt| == u.snapLen)
    && b.origLen == e.pktLen
    && b.timestamp < 0x1_0000_0000_0000_0000 && (e.time + u.epochDelta - b.timestamp) % 0x1_0000_0000_0000_0000 == 0
    && b.ifid == 2 * e.progIndex + (if e.fexit then 1 else 0)
    && DataOf(b.opts, 2) == Some([1, 0, 0, 0])
    && ValueOf(b.opts, 6) == e.rxQueue && DataOf(b.opts, 6).Some?
    && (DataOf(b.opts, 7).Some? <==> e.fexit)
    && (e.fexit ==>
          var data := DataOf(b.opts, 7).value;
          && |data| == 9 && data[0] == 2
          && FromLE(data[1..]) == if e.action >= 0 then e.action else 0x1_0000_0000_0000_0000 + e.action)
  }

  lemma OptionsTell(o: Options)
    requires Wellformed(Packet(0, 0, 0, []), o) && o.flags == 1 && o.queue.Some? && o.comment.None?
    ensures DataOf(EpbOpts(o), 2) == Some([1, 0, 0, 0])
    ensures DataOf(EpbOpts(o), 6).Some? && ValueOf(EpbOpts(o), 6) == o.queue.value
    ensures o.verdict.None? ==> DataOf(EpbOpts(o), 7).None?
    ensures o.verdict.Some? ==>
              var data := DataOf(EpbOpts(o), 7);
              && data.Some? && |data.value| == 9 && data.value[0] == 2
              && FromLE(data.value[1..]) == o.verdict.value % TWO_64
  {
    EpbData(o, 2);
    EpbData(o, 6);
    EpbData(o, 7);
    Pow256Values();
    FlagBytes();
    LERoundTrip(o.queue.value, 4);
    if o.verdict.Some? {
      LERoundTrip(o.verdict.value % TWO_64, 8);
      assert ([2] + LE(o.verdict.value % TWO_64, 8))[1..] == LE(o.verdict.value % TWO_64, 8);
    }
    hide FromLE, LE, EpbOpts, DataOf;
  }

  lemma FlagBytes()
    ensures LE(1, 4) == [1, 0, 0, 0]
  {
    assert LE(0, 1) == [0] && LE(0, 2) == [0, 0] && LE(0, 3) == [0, 0, 0];
  }

  /** The part of it that is not in the options. */
  ghost predicate TellsPacket(u: Setup, e: Event, p: Packet)
    requires e.Sample?
  {
    && |p.data| <= |e.packet| && p.data == e.packet[..|p.data|]
    && |p.data| <= e.capLen && |p.data| <= u.snapLen && (|p.data| == e.capLen || |p.data| == u.snapLen)
    && p.len == e.pktLen
    && p.timestamp < 0x1_0000_0000_0000_0000 && (e.time + u.epochDelta - p.timestamp) % 0x1_0000_0000_0000_0000 == 0
    && p.ifid == 2 * e.progIndex + (if e.fexit then 1 else 0)
  }

  lemma TimeWraps(t: nat)
    ensures (t - t % TWO_64) % TWO_64 == 0
  {
  }

  lemma PacketTells(u: Setup, e: Event)
    requires Accepted(u, e) && InWidth(e)
    ensures TellsPacket(u, e, PacketOf(u, e))
  {
    TimeWraps(e.time + u.epochDelta);
  }

  lemma BlockTells(u: Setup, e: Event, pending: nat, id: nat)
    requires Accepted(u, e) && InWidth(e)
    ensures Tells(u, e, BlockOf(u, e, pending, id))
  {
    hide EpbOpts, DataOf, ValueOf, FromLE, PacketOf;
    OptionsTell(OptionsOf(e, pending % TWO_64, id % TWO_64));
    PacketTells(u, e);
  }

  /** The accepted events, in order. */
  ghost function AcceptedIn(u: Setup, es: seq<Event>): seq<Event> {
    if es == [] then []
    else
      var e := es[|es| - 1];
      AcceptedIn(u, es[..|es| - 1]) + if Accepted(u, e) then [e] else []
  }

  /** The blocks of a capture tell of its accepted events, one by one and in order. */
  lemma {:induction false} CaptureTells(u: Setup, es: seq<Event>)
    requires AllInWidth(es)
    ensures |Emitted(u, es)| == |AcceptedIn(u, es)|
    ensures forall i | 0 <= i < |Emitted(u, es)| :: Tells(u, AcceptedIn(u, es)[i], Emitted(u, es)[i])
  {
    hide Tells, BlockOf, Pending, LastId, InWidth;
    if es != [] {
      var before, e := es[..|es| - 1], es[|es| - 1];
      CaptureTells(u, before);
      if Accepted(u, e) {
        assert e in es;
        BlockTells(u, e, Pending(u, before), LastId(u, es, e.cpu));
      }
    }
  }

  /** Drop counts over all packet blocks. */
  ghost function Drops(bs: seq<Block>): nat {
    if bs == [] then 0
    else Drops(bs[..|bs| - 1]) + ValueOf(bs[|bs| - 1].opts, 4)
  }

  lemma DropsAppend(bs: seq<Block>, b: Block)
    ensures Drops(bs + [b]) == Drops(bs) + ValueOf(b.opts, 4)
  {
    assert (bs + [b])[..|bs|] == bs;
  }

  // ---------------------------------------------------------------------------
  // Accounting

  lemma {:induction false} PendingBound(u: Setup, es: seq<Event>)
    ensures Pending(u, es) <= LostIn(es)
  {
    if es != [] {
      PendingBound(u, es[..|es| - 1]);
    }
  }

  lemma DropsOneMore(u: Setup, es: seq<Event>)
    requires es != [] && AllInWidth(es) && Accepted(u, es[|es| - 1])
    ensures Drops(Emitted(u, es)) == Drops(Emitted(u, es[..|es| - 1])) + Pending(u, es[..|es| - 1]) % TWO_64
  {
    var before, e := es[..|es| - 1], es[|es| - 1];
    var pending, id := Pending(u, before), LastId(u, es, e.cpu);
    NumbersReadBack(u, e, pending, id);
    hide BlockOf, ValueOf, LastId, Pending;
    DropsAppend(Emitted(u, before), BlockOf(u, e, pending, id));
  }

  /** No lost event goes unreported or is reported twice: what the written blocks say was
      dropped, plus what is still pending, is what was lost. */
  lemma {:induction false} DropsConserved(u: Setup, es: seq<Event>)
    requires AllInWidth(es) && LostIn(es) < TWO_64
    ensures Drops(Emitted(u, es)) + Pending(u, es) == LostIn(es)
  {
    hide Drops, Emitted, Accepted, InWidth;
    if es == [] {
      NoDrops(u);
    } else {
      var before, e := es[..|es| - 1], es[|es| - 1];
      assert AllInWidth(before);
      DropsConserved(u, before);
      if Accepted(u, e) {
        PendingBound(u, before);
        DropsOneMore(u, es);
        AcceptedIsNoLoss(u, e);
      } else {
        EmittedSkip(u, es);
      }
    }
  }

  lemma EmittedSkip(u: Setup, es: seq<Event>)
    requires es != [] && AllInWidth(es) && !Accepted(u, es[|es| - 1])
    ensures Emitted(u, es) == Emitted(u, es[..|es| - 1])
  {
    hide BlockOf, LastId, Pending, InWidth;
  }

  /** The same once 64-bit counters have wrapped around. */
  lemma {:induction false} DropsConservedModulo(u: Setup, es: seq<Event>)
    requires AllInWidth(es)
    ensures (Drops(Emitted(u, es)) + Pending(u, es)) % TWO_64 == LostIn(es) % TWO_64
  {
    hide Drops, Emitted, Accepted, InWidth;
    if es == [] {
      NoDrops(u);
    } else {
      var before, e := es[..|es| - 1], es[|es| - 1];
      assert AllInWidth(before);
      DropsConservedModulo(u, before);
      var d, p, l := Drops(Emitted(u, before)), Pending(u, before), LostIn(before);
      if Accepted(u, e) {
        DropsOneMore(u, es);
        SumModulo(d, p);
        AcceptedIsNoLoss(u, e);
      } else {
        EmittedSkip(u, es);
        SameModulo(d + p, l, if e.Lost? then e.count else 0);
      }
    }
  }

  lemma NoDrops(u: Setup)
    ensures Drops(Emitted(u, [])) == 0
  {
  }

  lemma AcceptedIsNoLoss(u: Setup, e: Event)
    requires Accepted(u, e)
    ensures !e.Lost?
  {
  }

  lemma SumModulo(d: nat, p: nat)
    ensures (d + p % TWO_64) % TWO_64 == (d + p) % TWO_64
  {
  }

  lemma SameModulo(a: nat, b: nat, c: nat)
    requires a % TWO_64 == b % TWO_64
    ensures (a + c) % TWO_64 == (b + c) % TWO_64
  {
  }

  lemma {:induction false} OneBlockPerSample(u: Setup, es: seq<Event>)
    requires AllInWidth(es)
    ensures |Emitted(u, es)| == Samples(u, es)
  {
    hide BlockOf;
    if es != [] {
      OneBlockPerSample(u, es[..|es| - 1]);
    }
  }

  // ---------------------------------------------------------------------------
  // Packet ids

  lemma {:induction false} HandedMonotone(u: Setup, es: seq<Event>, i: nat)
    requires i <= |es|
    ensures Handed(u, es[..i]) <= Handed(u, es)
    decreases |es| - i
  {
    if i < |es| {
      HandedMonotone(u, es, i + 1);
      assert es[..i + 1][..i] == es[..i];
    } else {
      assert es[..i] == es;
    }
  }

  /** Ids are handed out in strictly increasing order, starting above zero. */
  lemma IdsIncrease(u: Setup, es: seq<Event>, i: nat, j: nat)
    requires i < j < |es| && Hands(u, es[i]) && Hands(u, es[j])
    ensures 0 < LastId(u, es[..i + 1], es[i].cpu) < LastId(u, es[..j + 1], es[j].cpu)
  {
    assert es[..j + 1][..j] == es[..j] && es[..i + 1][..i] == es[..i];
    assert es[..j][..i + 1] == es[..i + 1];
    HandedMonotone(u, es[..j], i + 1);
  }

  lemma {:induction false} LastIdBound(u: Setup, es: seq<Event>, cpu: nat)
    ensures LastId(u, es, cpu) <= Handed(u, es)
  {
    if es != [] {
      LastIdBound(u, es[..|es| - 1], cpu);
    }
  }

  /** No two CPUs ever hold the same packet id. */
  lemma {:induction false} SlotsDistinct(u: Setup, es: seq<Event>, c: nat, d: nat)
    requires c != d && LastId(u, es, c) != 0
    ensures LastId(u, es, c) != LastId(u, es, d)
  {
    if es != [] {
      var before := es[..|es| - 1];
      LastIdBound(u, before, c);
      LastIdBound(u, before, d);
      if LastId(u, before, c) != 0 {
        SlotsDistinct(u, before, c, d);
      }
    }
  }

  /** Until the next packet enters on the same CPU, every later sample there carries the id
      handed out on entry: the exit of a program is filed under the entry it belongs to. */
  lemma {:induction false} SamplesShareTheEntryId(u: Setup, es: seq<Event>, i: nat, j: nat)
    requires i <= j < |es| && Hands(u, es[i])
    requires forall k | i < k <= j :: !(Hands(u, es[k]) && es[k].cpu == es[i].cpu)
    ensures LastId(u, es[..j + 1], es[i].cpu) == Handed(u, es[..i + 1])
    decreases j
  {
    assert es[..j + 1][..j] == es[..j];
    if i < j {
      SamplesShareTheEntryId(u, es, i, j - 1);
    }
  }

  // ---------------------------------------------------------------------------
  // Interfaces

  lemma {:induction false} InterfacesBelow(u: Setup, es: seq<Event>)
    requires AllInWidth(es)
    ensures forall b | b in Emitted(u, es) :: b.Epb? && b.ifid < 2 * |u.funcs|
  {
    if es != [] {
      InterfacesBelow(u, es[..|es| - 1]);
      hide EpbOpts, LastId, Pending;
    }
  }

  /** Appending packets that stay below the number of interfaces keeps every reference resolved. */
  lemma {:induction false} PacketsResolve(start: seq<Block>, bs: seq<Block>)
    requires Resolved(start) && forall b | b in bs :: b.Epb? && b.ifid < |Described(start)|
    ensures Resolved(start + bs) && Described(start + bs) == Described(start)
  {
    if bs == [] {
      assert start + bs == start;
    } else {
      var init, b := bs[..|bs| - 1], bs[|bs| - 1];
      PacketsResolve(start, init);
      assert start + bs == (start + init) + [b];
      AppendBlock(start + init, b);
    }
  }

  /** Every packet of a capture refers to an interface block written before it. */
  lemma CaptureResolves(u: Setup, start: seq<Block>, es: seq<Event>)
    requires AllInWidth(es) && Resolved(start) && |Described(start)| >= 2 * |u.funcs|
    ensures Resolved(start + Emitted(u, es)) && Described(start + Emitted(u, es)) == Described(start)
  {
    InterfacesBelow(u, es);
    PacketsResolve(start, Emitted(u, es));
  }
}
