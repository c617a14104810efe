/** The PcapNG file as a whole: lib/util/xpcapng.c's dumper handle. */
module PcapNgDumper {
  import opened Common
  import opened PcapNgFormat
  import opened PcapNgWriter
  import PcapNgInterface
  import PcapNgPacket

  /** The interface blocks, in order: a reader numbers them from zero. */
  ghost function Described(bs: seq<Block>): seq<Block> {
    if bs == [] then []
    else
      var b := bs[|bs| - 1];
      var before := Described(bs[..|bs| - 1]);
      if b.Idb? then before + [b] else before
  }

  /** Every packet block names an interface described before it. */
  ghost predicate Resolved(bs: seq<Block>) {
    bs == [] ||
    (Resolved(bs[..|bs| - 1]) &&
     (bs[|bs| - 1].Epb? ==> bs[|bs| - 1].ifid < |Described(bs[..|bs| - 1])|))
  }

  function ShbLength(comment: Option<seq<byte>>, hardware: Option<seq<byte>>, os: Option<seq<byte>>,
                     application: Option<seq<byte>>): nat
  {
    32 + Measured(comment) + Measured(hardware) + Measured(os) + Measured(application)
  }

  lemma AppendBlock(bs: seq<Block>, b: Block)
    ensures Described(bs + [b]) == Described(bs) + (if b.Idb? then [b] else [])
    ensures Resolved(bs + [b]) <==> Resolved(bs) && (b.Epb? ==> b.ifid < |Described(bs)|)
  {
    assert (bs + [b])[..|bs|] == bs;
  }

  /** struct xpcapng_dumper; out is everything written to the file so far. */
  class Dumper {
    var out: seq<byte>
    var interfaces: nat
    ghost var blocks: seq<Block>

    /** A reader finds exactly the blocks that were asked for. */
    ghost predicate Readable()
      reads this
    {
      ParseFile(out) == Some(blocks) && interfaces == |Described(blocks)|
    }

    constructor (comment: Option<seq<byte>>, hardware: Option<seq<byte>>, os: Option<seq<byte>>,
                 application: Option<seq<byte>>)
      ensures blocks == [Shb(ShbOpts(comment, hardware, os, application))] && interfaces == 0
      ensures |out| == ShbLength(comment, hardware, os, application)
      ensures Readable() <==> Short(comment) && Short(hardware) && Short(os) && Short(application)
    {
      var block := WriteShb(comment, hardware, os, application);
      out := block;
      interfaces := 0;
      blocks := [Shb(ShbOpts(comment, hardware, os, application))];
      new;
      hide Encodes, ShbOpts, Short;
      SingleBlock(block, blocks[0]);
      AppendBlock([], blocks[0]);
      assert [] + [blocks[0]] == blocks;
    }

    /** xpcapng_dump_open(). The file takes at most `room` bytes of the write; there is no dumper unless
        it takes them all. */
    static method Open(comment: Option<seq<byte>>, hardware: Option<seq<byte>>, os: Option<seq<byte>>,
                       application: Option<seq<byte>>, room: nat) returns (pd: Dumper?)
      ensures pd != null <==> room >= ShbLength(comment, hardware, os, application)
      ensures pd != null ==> fresh(pd) && pd.blocks == [Shb(ShbOpts(comment, hardware, os, application))] && pd.interfaces == 0
      ensures pd != null ==> (pd.Readable() <==> Short(comment) && Short(hardware) && Short(os) && Short(application))
    {
      hide ParseFile, ShbOpts, Short, Described, ShbLength;
      pd := new Dumper(comment, hardware, os, application);
      if room < |pd.out| {
        pd := null;
      }
    }

    /** write(): the file takes at most `room` bytes of the block, and the result is compared with its
        length. A file that could be read can be read afterwards if it took all of the block or
        nothing of it, and cannot otherwise. */
    method Append(block: seq<byte>, ghost b: Block, room: nat) returns (ok: bool)
      modifies this`out, this`blocks
      ensures ok <==> room >= |block|
      ensures out == old(out) + if ok then block else block[..room]
      ensures blocks == if ok then old(blocks) + [b] else old(blocks)
      ensures ParseFile(old(out)) == Some(old(blocks)) && Encodes(block, b) ==>
                (ParseFile(out) == Some(blocks) <==> ok || room == 0) && (ParseFile(out).None? <==> !ok && room > 0)
    {
      hide ParseFile, Encodes;
      ok := room >= |block|;
      var taken := if ok then block else block[..room];
      if ParseFile(out) == Some(blocks) && Encodes(block, b) {
        if ok {
          ParseFileAppend(out, block, blocks, b);
        } else if room > 0 {
          ParseFileTorn(out, block, blocks, b, room);
        } else {
          assert out + taken == out;
        }
      }
      out := out + taken;
      blocks := if ok then blocks + [b] else blocks;
    }

    /** xpcapng_dump_add_interface(): returns the id by which packets refer to it, or -1. */
    method AddInterface(snapLen: nat, f: PcapNgInterface.Fields, room: nat) returns (id: int)
      requires PcapNgInterface.Wellformed(f)
      modifies this
      ensures id == -1 <==> room < PcapNgInterface.IdbLength(f)
      ensures id == -1 ==> interfaces == old(interfaces) && blocks == old(blocks)
      ensures id != -1 ==>
                && id == old(interfaces) && interfaces == old(interfaces) + 1
                && blocks == old(blocks) + [Idb(1, snapLen % 0x1_0000, PcapNgInterface.IdbOpts(f))]
      ensures old(Readable()) && Short(f.name) && Short(f.description) && Short(f.hardware) ==>
                (Readable() <==> id != -1 || room == 0) && (ParseFile(out).None? <==> id == -1 && room > 0)
    {
      var block := PcapNgInterface.WriteIdb(snapLen % 0x1_0000, f);
      ghost var b := Idb(1, snapLen % 0x1_0000, PcapNgInterface.IdbOpts(f));
      hide ParseFile, Encodes, Short, PcapNgInterface.IdbOpts, PcapNgInterface.Wellformed, Described, PcapNgInterface.IdbLength;
      AppendBlock(blocks, b);
      var ok := Append(block, b, room);
      id := -1;
      if ok {
        id := interfaces;
        interfaces := interfaces + 1;
      }
    }

    /** xpcapng_dump_enhanced_pkt() */
    method EnhancedPacket(p: PcapNgPacket.Packet, o: PcapNgPacket.Options, room: nat) returns (ok: bool)
      requires PcapNgPacket.Wellformed(p, o)
      modifies this
      ensures interfaces == old(interfaces) && (ok <==> room >= PcapNgPacket.EpbLength(p, o))
      ensures blocks == old(blocks) + if ok then [Epb(p.ifid, p.timestamp, p.len, p.data, PcapNgPacket.EpbOpts(o))] else []
      ensures old(Readable()) && Short(o.comment) && PcapNgPacket.EpbLength(p, o) < 0x1_0000_0000 ==>
                (Readable() <==> ok || room == 0) && (ParseFile(out).None? <==> !ok && room > 0)
    {
      var block := PcapNgPacket.WriteEpb(p, o);
      ghost var b := Epb(p.ifid, p.timestamp, p.len, p.data, PcapNgPacket.EpbOpts(o));
      hide ParseFile, Encodes, Short, PcapNgPacket.EpbOpts, PcapNgPacket.Wellformed, Described, PcapNgPacket.EpbLength;
      AppendBlock(blocks, b);
      ok := Append(block, b, room);
    }
  }

  lemma SingleBlock(block: seq<byte>, b: Block)
    requires |block| >= 12
    ensures ParseFile(block) == Some([b]) <==> Encodes(block, b)
  {
    hide ParseBlock, BlockLength;
    if Encodes(block, b) {
      assert ParseFile([]) == Some([]);
      ParseFileAppend([], block, [], b);
      assert [] + block == block && [] + [b] == [b];
    }
    if ParseFile(block) == Some([b]) {
      var len := BlockLength(block).value;
      var rest := ParseFile(block[len..]).value;
      assert [b] == [ParseBlock(block, len).value] + rest;
      assert rest == [] && b == [b][0] == ParseBlock(block, len).value;
      ParsesToNothing(block[len..]);
      assert len == |block|;
    }
  }

  lemma ParsesToNothing(s: seq<byte>)
    requires ParseFile(s) == Some([])
    ensures s == []
  {
  }
}
