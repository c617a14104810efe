/** Enhanced packet blocks (lib/util/xpcapng.c): fixed-size options are laid out in a
    64-byte buffer whose contents are arbitrary to begin with, and the block goes out as
    at most seven pieces. */
module PcapNgPacket {
  import opened Common
  import opened PcapNgFormat
  import opened PcapNgWriter

  /** struct xpcapng_epb_options_s. */
  datatype Options = Options(flags: nat, dropcount: nat, packetid: Option<nat>, queue: Option<nat>,
                             verdict: Option<int>, comment: Option<seq<byte>>)

  datatype Packet = Packet(ifid: nat, timestamp: nat, len: nat, data: seq<byte>)

  const TWO_32: nat := 0x1_0000_0000
  const TWO_64: nat := 0x1_0000_0000_0000_0000

  /** Every value has the width of its C type. */
  predicate Wellformed(p: Packet, o: Options) {
    && p.ifid < TWO_32 && p.timestamp < TWO_64 && p.len < TWO_32 && |p.data| < TWO_32
    && o.flags < TWO_32 && o.dropcount < TWO_64
    && (o.packetid.Some? ==> o.packetid.value < TWO_64) && (o.queue.Some? ==> o.queue.value < TWO_32)
    && (o.verdict.Some? ==> -0x8000_0000_0000_0000 <= o.verdict.value < 0x8000_0000_0000_0000)
  }

  function Flags(o: Options): (r: Option<seq<byte>>)
    ensures r.Some? ==> |r.value| == 4
  {
    if o.flags != 0 then Some(LE(o.flags, 4)) else None
  }

  function Dropcount(o: Options): (r: Option<seq<byte>>)
    ensures r.Some? ==> |r.value| == 8
  {
    if o.dropcount != 0 then Some(LE(o.dropcount, 8)) else None
  }

  function PacketId(o: Options): (r: Option<seq<byte>>)
    ensures r.Some? ==> |r.value| == 8
  {
    if o.packetid.Some? then Some(LE(o.packetid.value, 8)) else None
  }

  function Queue(o: Options): (r: Option<seq<byte>>)
    ensures r.Some? ==> |r.value| == 4
  {
    if o.queue.Some? then Some(LE(o.queue.value, 4)) else None
  }

  /** The type byte (2: eBPF XDP) and a two's complement int64_t. */
  function Verdict(o: Options): (r: Option<seq<byte>>)
    ensures r.Some? ==> |r.value| == 9
  {
    if o.verdict.Some? then Some([2] + LE(o.verdict.value % TWO_64, 8)) else None
  }

  ghost function FixedOpts(o: Options): seq<Opt> {
    OptOf(2, Flags(o)) + OptOf(4, Dropcount(o)) + OptOf(5, PacketId(o)) + OptOf(6, Queue(o)) + OptOf(7, Verdict(o))
  }

  ghost function EpbOpts(o: Options): seq<Opt> {
    OptOf(1, o.comment) + FixedOpts(o)
  }

  ghost function FixedLength(o: Options): nat {
    Measured(Flags(o)) + Measured(Dropcount(o)) + Measured(PacketId(o)) + Measured(Queue(o)) + Measured(Verdict(o))
  }

  ghost function EpbLength(p: Packet, o: Options): nat {
    28 + RoundUp4(|p.data|) + FixedLength(o) + Measured(o.comment) + 8
  }

  // ---------------------------------------------------------------------------
  // The options buffer

  lemma FixedSizes(o: Options)
    ensures Short(Flags(o)) && Short(Dropcount(o)) && Short(PacketId(o)) && Short(Queue(o)) && Short(Verdict(o))
    ensures Advance(Flags(o)) == Measured(Flags(o)) == if o.flags != 0 then 8 else 0
    ensures Advance(Dropcount(o)) == Measured(Dropcount(o)) == if o.dropcount != 0 then 12 else 0
    ensures Advance(PacketId(o)) == Measured(PacketId(o)) == if o.packetid.Some? then 12 else 0
    ensures Advance(Queue(o)) == Measured(Queue(o)) == if o.queue.Some? then 8 else 0
    ensures Advance(Verdict(o)) == Measured(Verdict(o)) == if o.verdict.Some? then 16 else 0
  {
    hide LE;
  }

  /** Fills the buffer; it never runs over the 64 bytes. */
  method PutFixedOptions(options: array<byte>, o: Options) returns (at: nat)
    requires options.Length == 64
    modifies options
    ensures at == FixedLength(o) <= 56
    ensures LaidOut(options[..at], FixedOpts(o))
  {
    FixedSizes(o);
    hide Holds, LaidOut, Advance, OptOf, Short, Flags, Dropcount, PacketId, Queue, Verdict, Measured;
    HeaderOnly(options[..], []);
    at := AddIf(options, 0, 2, Flags(o), [], []);
    ghost var opts := OptOf(2, Flags(o));
    assert [] + OptOf(2, Flags(o)) == opts;
    at := AddIf(options, at, 4, Dropcount(o), [], opts);
    opts := opts + OptOf(4, Dropcount(o));
    at := AddIf(options, at, 5, PacketId(o), [], opts);
    opts := opts + OptOf(5, PacketId(o));
    at := AddIf(options, at, 6, Queue(o), [], opts);
    opts := opts + OptOf(6, Queue(o));
    at := AddIf(options, at, 7, Verdict(o), [], opts);
    opts := opts + OptOf(7, Verdict(o));
    HoldsAlone(options[..], at, opts);
    assert options[..][..at] == options[..at];
  }

  lemma HoldsAlone(s: seq<byte>, at: nat, opts: seq<Opt>)
    requires Holds(s, [], at, opts)
    ensures at <= |s| && LaidOut(s[..at], opts)
  {
    assert s[0..at] == s[..at];
  }

  // ---------------------------------------------------------------------------
  // Pieces

  /** What writev() sends. */
  ghost function Gather(iov: seq<seq<byte>>): seq<byte> {
    if iov == [] then [] else Gather(iov[..|iov| - 1]) + iov[|iov| - 1]
  }

  method AddPiece(iov: array<seq<byte>>, i: nat, piece: seq<byte>) returns (next: nat)
    requires i < iov.Length
    modifies iov
    ensures next == i + 1 && Gather(iov[..next]) == old(Gather(iov[..i])) + piece
  {
    iov[i] := piece;
    next := i + 1;
    assert iov[..next][..i] == old(iov[..i]);
  }

  function PadTo4(n: nat): (pad: seq<byte>)
    ensures |pad| == RoundUp4(n) - n && |pad| < 4
  {
    seq(RoundUp4(n) - n, _ => 0)
  }

  /** The comment: header, text and padding. */
  function CommentBytes(comment: Option<seq<byte>>): seq<byte> {
    if comment.None? then []
    else LE(1, 2) + LE(|comment.value| % 0x1_0000, 2) + comment.value + PadTo4(|comment.value|)
  }

  method AddComment(iov: array<seq<byte>>, i: nat, comment: Option<seq<byte>>) returns (next: nat)
    requires i + (if comment.Some? then 3 else 0) <= iov.Length
    modifies iov
    ensures i <= next <= i + (if comment.Some? then 3 else 0)
    ensures Gather(iov[..next]) == old(Gather(iov[..i])) + CommentBytes(comment)
  {
    next := i;
    if comment.Some? {
      var text := comment.value;
      var pad := PadTo4(|text|);
      hide LE, PadTo4, Gather;
      next := AddPiece(iov, next, LE(1, 2) + LE(|text| % 0x1_0000, 2));
      next := AddPiece(iov, next, text);
      if |pad| > 0 {
        next := AddPiece(iov, next, pad);
      }
    }
  }

  /** Header, packet data and padding. */
  method AddPacket(iov: array<seq<byte>>, head: seq<byte>, data: seq<byte>) returns (next: nat)
    requires iov.Length == 7
    modifies iov
    ensures 2 <= next <= 3 && Gather(iov[..next]) == head + data + PadTo4(|data|)
  {
    assert Gather(iov[..0]) == [];
    var pad := PadTo4(|data|);
    hide PadTo4, Gather;
    next := AddPiece(iov, 0, head);
    next := AddPiece(iov, next, data);
    if |pad| > 0 {
      next := AddPiece(iov, next, pad);
    }
  }

  // ---------------------------------------------------------------------------
  // The block

  ghost function EpbHead(len: nat, p: Packet): (h: seq<byte>)
    ensures |h| == 28 && h[0..4] == LE(ENHANCED_PACKET_BLOCK, 4) && h[4..8] == LE(len, 4)
  {
    hide LE;
    LE(ENHANCED_PACKET_BLOCK, 4) + LE(len, 4) + LE(p.ifid, 4) + LE(p.timestamp / TWO_32, 4) +
    LE(p.timestamp % TWO_32, 4) + LE(|p.data|, 4) + LE(p.len, 4)
  }

  /** Header, data and padding: everything before the options. */
  ghost function EpbFront(len: nat, p: Packet): (h: seq<byte>)
    ensures |h| == 28 + RoundUp4(|p.data|)
    ensures h[0..4] == LE(ENHANCED_PACKET_BLOCK, 4) && h[4..8] == LE(len, 4)
  {
    var h := EpbHead(len, p) + p.data + PadTo4(|p.data|);
    assert h[0..4] == EpbHead(len, p)[0..4] && h[4..8] == EpbHead(len, p)[4..8];
    h
  }

  /** The fields of the header, at their offsets from the interface id. */
  lemma EpbFrontFields(len: nat, p: Packet)
    ensures var h := EpbFront(len, p);
            && h[8..12] == LE(p.ifid, 4) && h[12..16] == LE(p.timestamp / TWO_32, 4)
            && h[16..20] == LE(p.timestamp % TWO_32, 4) && h[20..24] == LE(|p.data|, 4) && h[24..28] == LE(p.len, 4)
            && h[28..28 + |p.data|] == p.data
  {
    hide LE, PadTo4;
    var g := EpbHead(len, p);
    var h := EpbFront(len, p);
    assert h[8..12] == g[8..12] && h[12..16] == g[12..16] && h[16..20] == g[16..20];
    assert h[20..24] == g[20..24] && h[24..28] == g[24..28];
  }

  lemma EpbReads(block: seq<byte>, p: Packet, opts: seq<Opt>)
    requires Complete(block, EpbFront(|block|, p), opts) && |block| < TWO_32 && |block| % 4 == 0
    requires p.ifid < TWO_32 && p.timestamp < TWO_64 && p.len < TWO_32
    ensures Encodes(block, Epb(p.ifid, p.timestamp, p.len, p.data, opts))
  {
    hide LE, FromLE, LaidOut, ParseOptions, Field, Pow256, EpbHead, PadTo4;
    var head := EpbFront(|block|, p);
    EpbFrontFields(|block|, p);
    hide EpbFront;
    BlockFromParts(block, ENHANCED_PACKET_BLOCK, head, opts);
    var body := block[|head|..|block| - 8];
    assert |block| >= 36 + |p.data|;
    hide Complete;
    var inner := block[8..|block| - 4];
    EpbBody(inner, head, body, p, opts);
  }

  lemma EpbBody(inner: seq<byte>, head: seq<byte>, body: seq<byte>, p: Packet, opts: seq<Opt>)
    requires |head| == 28 + RoundUp4(|p.data|) && inner == head[8..] + body + END
    requires head[8..12] == LE(p.ifid, 4) && head[12..16] == LE(p.timestamp / TWO_32, 4)
    requires head[16..20] == LE(p.timestamp % TWO_32, 4) && head[20..24] == LE(|p.data|, 4)
    requires head[24..28] == LE(p.len, 4) && head[28..28 + |p.data|] == p.data
    requires ParseOptions(body + END) == Some(opts)
    requires p.ifid < TWO_32 && p.timestamp < TWO_64 && p.len < TWO_32 && |p.data| < TWO_32
    ensures ParseEpb(inner) == Some(Epb(p.ifid, p.timestamp, p.len, p.data, opts))
  {
    hide LE, FromLE, ParseOptions, Field, Pow256, RoundUp4;
    assert RoundUp4(|p.data|) >= |p.data| by {
      RoundUp4Bound(|p.data|);
    }
    Pow256Values();
    assert inner[0..0 + 4] == head[8..12];
    FieldIs(inner, 0, 4, p.ifid);
    assert inner[4..4 + 4] == head[12..16];
    FieldIs(inner, 4, 4, p.timestamp / TWO_32);
    assert inner[8..8 + 4] == head[16..20];
    FieldIs(inner, 8, 4, p.timestamp % TWO_32);
    assert inner[12..12 + 4] == head[20..24];
    FieldIs(inner, 12, 4, |p.data|);
    assert inner[16..16 + 4] == head[24..28];
    FieldIs(inner, 16, 4, p.len);
    assert inner[20..20 + |p.data|] == head[28..28 + |p.data|];
    assert inner[20 + RoundUp4(|p.data|)..] == body + END;
  }

  lemma CommentIsOption(comment: Option<seq<byte>>, rest: seq<byte>, opts: seq<Opt>)
    requires LaidOut(rest, opts) && Short(comment)
    ensures LaidOut(CommentBytes(comment) + rest, OptOf(1, comment) + opts)
  {
    var t := CommentBytes(comment);
    if comment.None? {
      assert t + rest == rest && OptOf(1, comment) + opts == opts;
    } else {
      var o := Opt(1, comment.value);
      assert OneOption(t, o) by {
        hide LE, PadTo4;
        assert t[..4 + |o.data|] == LE(1, 2) + LE(|o.data|, 2) + o.data;
      }
      hide OneOption;
      assert |t| == OptionLength(|o.data|);
      var all := [o] + opts;
      assert (t + rest)[..|t|] == t && (t + rest)[|t|..] == rest;
      assert all[0] == o && all[1..] == opts;
    }
  }

  lemma CommentLength(comment: Option<seq<byte>>)
    ensures |CommentBytes(comment)| == Measured(comment) && Measured(comment) % 4 == 0
  {
    hide LE;
  }

  lemma CompleteFromParts(block: seq<byte>, head: seq<byte>, comment: seq<byte>, fixed: seq<byte>, last: seq<byte>,
                          opts: seq<Opt>)
    requires block == head + comment + (fixed + END + last) && |last| == 4
    requires |head| >= 8 && head[4..8] == last && LaidOut(comment + fixed, opts)
    ensures Complete(block, head, opts)
  {
    hide LaidOut;
    assert block[|head|..|block| - 8] == comment + fixed;
    assert block == head + (comment + fixed) + END + last;
  }

  lemma EpbComplete(block: seq<byte>, p: Packet, o: Options, fixed: seq<byte>)
    requires block == EpbFront(EpbLength(p, o), p) + CommentBytes(o.comment) + (fixed + END + LE(EpbLength(p, o), 4))
    requires LaidOut(fixed, FixedOpts(o)) && |fixed| == FixedLength(o)
    ensures |block| == EpbLength(p, o)
    ensures Short(o.comment) ==> Complete(block, EpbFront(|block|, p), EpbOpts(o))
  {
    CommentLength(o.comment);
    hide LaidOut, LE, FixedOpts, OptOf, Short, Measured, RoundUp4, FixedLength, EpbFront, CommentBytes, Complete;
    if Short(o.comment) {
      CommentIsOption(o.comment, fixed, FixedOpts(o));
      CompleteFromParts(block, EpbFront(|block|, p), CommentBytes(o.comment), fixed, LE(|block|, 4), EpbOpts(o));
    }
  }

  lemma LengthIsAligned(p: Packet, o: Options)
    ensures EpbLength(p, o) % 4 == 0
  {
    FixedSizes(o);
    CommentLength(o.comment);
    RoundUp4Bound(|p.data|);
    hide *;
    AlignedSum(Measured(Flags(o)), Measured(Dropcount(o)));
    AlignedSum(Measured(PacketId(o)), Measured(Queue(o)));
    AlignedSum(Measured(Flags(o)) + Measured(Dropcount(o)), Measured(PacketId(o)) + Measured(Queue(o)));
    AlignedSum(Measured(Flags(o)) + Measured(Dropcount(o)) + (Measured(PacketId(o)) + Measured(Queue(o))),
               Measured(Verdict(o)));
    AlignedLength(p, o);
  }

  lemma AlignedLength(p: Packet, o: Options)
    requires FixedLength(o) % 4 == 0 && Measured(o.comment) % 4 == 0 && RoundUp4(|p.data|) % 4 == 0
    ensures EpbLength(p, o) % 4 == 0
  {
    hide FixedLength, Measured, RoundUp4;
    AlignedSum(RoundUp4(|p.data|), FixedLength(o));
    AlignedSum(RoundUp4(|p.data|) + FixedLength(o), Measured(o.comment));
  }

  lemma EncodedLengthFits(block: seq<byte>, b: Block)
    requires Encodes(block, b)
    ensures |block| < TWO_32
  {
    Pow256Values();
    FieldBound(block, 4, 4);
  }

  lemma EpbIff(block: seq<byte>, p: Packet, o: Options)
    requires |block| == EpbLength(p, o) && Wellformed(p, o)
    requires Short(o.comment) ==> Complete(block, EpbFront(|block|, p), EpbOpts(o))
    ensures Encodes(block, Epb(p.ifid, p.timestamp, p.len, p.data, EpbOpts(o))) <==>
            Short(o.comment) && EpbLength(p, o) < TWO_32
  {
    LengthIsAligned(p, o);
    hide Complete, Encodes, EpbFront, OptOf, Short, EpbLength, FixedOpts;
    var b := Epb(p.ifid, p.timestamp, p.len, p.data, EpbOpts(o));
    if Short(o.comment) && EpbLength(p, o) < TWO_32 {
      EpbReads(block, p, EpbOpts(o));
    }
    if Encodes(block, b) {
      EncodedLengthFits(block, b);
      EncodedValueIsShort(block, b, 1, o.comment);
    }
  }

  /** The first pass. */
  method MeasureEpb(p: Packet, o: Options) returns (length: nat)
    ensures length == EpbLength(p, o)
  {
    assert OptionLength(0) == 4;
    hide OptionLength, LE;
    length := 28;
    length := length + |p.data| + |PadTo4(|p.data|)|;
    if o.flags != 0 {
      length := length + OptionLength(4);
    }
    if o.dropcount != 0 {
      length := length + OptionLength(8);
    }
    if o.packetid.Some? {
      length := length + OptionLength(8);
    }
    if o.queue.Some? {
      length := length + OptionLength(4);
    }
    if o.verdict.Some? {
      length := length + OptionLength(9);
    }
    if o.comment.Some? {
      length := length + OptionLength(|o.comment.value|);
    }
    length := length + OptionLength(0);
    length := length + 4;
  }

  method PutEpbHead(length: nat, p: Packet) returns (epb: seq<byte>)
    ensures epb == EpbHead(length, p)
  {
    epb := LE(ENHANCED_PACKET_BLOCK, 4) + LE(length, 4);
    epb := epb + LE(p.ifid, 4) + LE(p.timestamp / TWO_32, 4);
    epb := epb + LE(p.timestamp % TWO_32, 4) + LE(|p.data|, 4) + LE(p.len, 4);
  }

  /** The pieces, in order. */
  method SendEpb(epb: seq<byte>, p: Packet, o: Options, options: seq<byte>) returns (block: seq<byte>)
    ensures block == epb + p.data + PadTo4(|p.data|) + CommentBytes(o.comment) + options
  {
    hide PadTo4, CommentBytes, Gather;
    var iov := new seq<byte>[7](_ => []);
    var i := AddPacket(iov, epb, p.data);
    i := AddComment(iov, i, o.comment);
    i := AddPiece(iov, i, options);
    block := Writev(iov[..i]);
  }

  lemma TailBytes(s: seq<byte>, t: seq<byte>, at: nat, last: seq<byte>)
    requires Written(s, t, at, END + last) && |last| == 4
    ensures t[..at + 8] == s[..at] + END + last
  {
    assert t[..at + 8] == t[..at] + t[at..at + 8];
  }

  /** The options buffer up to the end of the block length in it. */
  method TailOfEpb(length: nat, o: Options) returns (tail: seq<byte>, ghost fixed: seq<byte>)
    ensures LaidOut(fixed, FixedOpts(o)) && |fixed| == FixedLength(o)
    ensures tail == fixed + END + LE(length, 4)
  {
    FixedSizes(o);
    hide LaidOut, FixedOpts, LE, Short, Advance, Measured, Flags, Dropcount, PacketId, Queue, Verdict;
    var options := new byte[64];
    var at := PutFixedOptions(options, o);
    fixed := options[..at];
    ghost var before := options[..];
    FinishBlock(options, at, LE(length, 4));
    TailBytes(before, options[..], at, LE(length, 4));
    var last := 8 + (if o.flags != 0 then 8 else 0) + (if o.dropcount != 0 then 12 else 0) +
                (if o.packetid.Some? then 12 else 0) + (if o.queue.Some? then 8 else 0) +
                (if o.verdict.Some? then 16 else 0);
    tail := options[..last];
  }

  /** pcapng_write_epb(): at most seven pieces, as many bytes as were counted, and a block a
      reader decodes to this packet exactly when the comment is shorter than 65536 bytes and
      the block length fits its 32-bit field. */
  method WriteEpb(p: Packet, o: Options) returns (block: seq<byte>)
    requires Wellformed(p, o)
    ensures |block| == EpbLength(p, o)
    ensures Encodes(block, Epb(p.ifid, p.timestamp, p.len, p.data, EpbOpts(o))) <==>
            Short(o.comment) && EpbLength(p, o) < TWO_32
  {
    hide Encodes, Complete, LaidOut, EpbHead, FixedOpts, LE, PadTo4, EpbLength, CommentBytes, Short, FixedLength;
    var length := MeasureEpb(p, o);
    var epb := PutEpbHead(length, p);
    ghost var fixed;
    var tail;
    tail, fixed := TailOfEpb(length, o);
    block := SendEpb(epb, p, o, tail);
    EpbComplete(block, p, o, fixed);
    EpbIff(block, p, o);
  }

  method Writev(iov: seq<seq<byte>>) returns (sent: seq<byte>)
    ensures sent == Gather(iov)
  {
    sent := [];
    for i := 0 to |iov|
      invariant sent == Gather(iov[..i])
    {
      assert iov[..i + 1][..i] == iov[..i];
      sent := sent + iov[i];
    }
    assert iov[..|iov|] == iov;
  }
}
