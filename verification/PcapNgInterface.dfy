/** Interface description blocks (lib/util/xpcapng.c). */
module PcapNgInterface {
  import opened Common
  import opened PcapNgFormat
  import opened PcapNgWriter

  /** The optional values, as option data. */
  datatype Fields = Fields(name: Option<seq<byte>>, description: Option<seq<byte>>, mac: Option<seq<byte>>,
                           speed: nat, tsResolution: byte, hardware: Option<seq<byte>>)

  function Speed(f: Fields): Option<seq<byte>> {
    if f.speed != 0 then Some(LE(f.speed, 8)) else None
  }

  function Resolution(f: Fields): Option<seq<byte>> {
    if f.tsResolution != 6 && f.tsResolution != 0 then Some([f.tsResolution]) else None
  }

  /** mac is six bytes, speed a uint64_t. */
  predicate Wellformed(f: Fields) {
    (f.mac.Some? ==> |f.mac.value| == 6) && f.speed < 0x1_0000_0000_0000_0000
  }

  ghost function IdbOpts(f: Fields): seq<Opt> {
    OptOf(2, f.name) + OptOf(3, f.description) + OptOf(6, f.mac) + OptOf(8, Speed(f)) + OptOf(9, Resolution(f)) +
    OptOf(15, f.hardware)
  }

  ghost function IdbLength(f: Fields): nat {
    24 + Measured(f.name) + Measured(f.description) + Measured(f.mac) + Measured(Speed(f)) + Measured(Resolution(f)) +
    Measured(f.hardware)
  }

  ghost predicate AllShort(f: Fields) {
    Short(f.name) && Short(f.description) && Short(f.hardware)
  }

  ghost function IdbHead(len: nat, snapLen: nat): (h: seq<byte>)
    ensures |h| == 16 && h[0..4] == LE(INTERFACE_BLOCK, 4) && h[4..8] == LE(len, 4)
  {
    hide LE;
    LE(INTERFACE_BLOCK, 4) + LE(len, 4) + LE(1, 2) + LE(0, 2) + LE(snapLen, 4)
  }

  /** The reserved field is left as it is, zero. */
  method PutIdbHead(buf: array<byte>, snapLen: nat)
    requires buf.Length >= 16
    requires buf[..][10..12] == LE(0, 2)
    modifies buf
    ensures Written(old(buf[..]), buf[..], 0, IdbHead(buf.Length, snapLen))
  {
    hide LE, Written;
    ghost var b0 := buf[..];
    PutLE(buf, 0, INTERFACE_BLOCK, 4);
    ghost var h, b := LE(INTERFACE_BLOCK, 4), buf[..];
    PutLE(buf, 4, buf.Length, 4);
    TwoWrites(b0, b, buf[..], 0, h, LE(buf.Length, 4));
    h, b := h + LE(buf.Length, 4), buf[..];
    PutLE(buf, 8, 1, 2);
    TwoWrites(b0, b, buf[..], 0, h, LE(1, 2));
    h, b := h + LE(1, 2), buf[..];
    Untouched(b0, b, h, 10, 12);
    TwoWrites(b0, b, b, 0, h, LE(0, 2));
    h := h + LE(0, 2);
    PutLE(buf, 12, snapLen, 4);
    TwoWrites(b0, b, buf[..], 0, h, LE(snapLen, 4));
  }

  /** What lies behind a write is as before. */
  lemma Untouched(s: seq<byte>, t: seq<byte>, d: seq<byte>, i: nat, j: nat)
    requires Written(s, t, 0, d) && |d| <= i <= j <= |s|
    ensures t[i..j] == s[i..j] && Written(t, t, i, s[i..j])
  {
    SliceOfSuffix(s, |d|, i - |d|, j - |d|);
    SliceOfSuffix(t, |d|, i - |d|, j - |d|);
  }

  lemma IdbReads(block: seq<byte>, snapLen: nat, opts: seq<Opt>)
    requires Complete(block, IdbHead(|block|, snapLen), opts) && |block| < 0x1_0000_0000 && |block| % 4 == 0
    requires snapLen < 0x1_0000
    ensures Encodes(block, Idb(1, snapLen, opts))
  {
    hide LE, FromLE, LaidOut, ParseOptions, Field, Pow256;
    var head := IdbHead(|block|, snapLen);
    BlockFromParts(block, INTERFACE_BLOCK, head, opts);
    var inner := block[8..|block| - 4];
    Pow256Values();
    assert inner[0..0 + 2] == head[8..10] == LE(1, 2);
    FieldIs(inner, 0, 2, 1);
    assert inner[4..4 + 4] == head[12..16] == LE(snapLen, 4);
    FieldIs(inner, 4, 4, snapLen);
    assert inner[8..] == block[16..|block| - 8] + END;
  }

  lemma FixedFields(f: Fields)
    requires Wellformed(f)
    ensures Short(f.mac) && Short(Speed(f)) && Short(Resolution(f))
    ensures Measured(f.mac) <= 12 && Measured(Speed(f)) <= 12 && Measured(Resolution(f)) <= 8
  {
  }

  lemma PassesAgree(f: Fields)
    ensures Advance(f.name) <= Measured(f.name) && Advance(f.description) <= Measured(f.description)
    ensures Advance(f.mac) <= Measured(f.mac) && Advance(Speed(f)) <= Measured(Speed(f))
    ensures Advance(Resolution(f)) <= Measured(Resolution(f)) && Advance(f.hardware) <= Measured(f.hardware)
    ensures IdbLength(f) % 4 == 0
    ensures Wellformed(f) && AllShort(f) ==>
              && Advance(f.name) == Measured(f.name) && Advance(f.description) == Measured(f.description)
              && Advance(f.mac) == Measured(f.mac) && Advance(Speed(f)) == Measured(Speed(f))
              && Advance(Resolution(f)) == Measured(Resolution(f)) && Advance(f.hardware) == Measured(f.hardware)
  {
    PassesAgreeIffShort(f.name);
    PassesAgreeIffShort(f.description);
    PassesAgreeIffShort(f.mac);
    PassesAgreeIffShort(Speed(f));
    PassesAgreeIffShort(Resolution(f));
    PassesAgreeIffShort(f.hardware);
    hide Measured, Advance, Speed, Resolution;
    if Wellformed(f) {
      FixedFields(f);
    }
  }

  /** The second pass, first half of the options. */
  method PutDescriptions(buf: array<byte>, f: Fields, ghost head: seq<byte>) returns (at: nat)
    requires 16 + Advance(f.name) + Advance(f.description) + Advance(f.mac) <= buf.Length
    requires Holds(buf[..], head, 16, []) && Short(f.mac)
    modifies buf
    ensures at == 16 + Advance(f.name) + Advance(f.description) + Advance(f.mac)
    ensures AllShort(f) ==> Holds(buf[..], head, at, OptOf(2, f.name) + OptOf(3, f.description) + OptOf(6, f.mac))
  {
    hide Holds, Advance, OptOf, Short;
    at := AddIf(buf, 16, 2, f.name, head, []);
    ghost var opts := OptOf(2, f.name);
    assert [] + OptOf(2, f.name) == opts;
    at := AddIf(buf, at, 3, f.description, head, opts);
    opts := opts + OptOf(3, f.description);
    at := AddIf(buf, at, 6, f.mac, head, opts);
  }

  /** The second pass, second half of the options. */
  method PutProperties(buf: array<byte>, start: nat, f: Fields, ghost head: seq<byte>, ghost before: seq<Opt>)
      returns (at: nat)
    requires start + Advance(Speed(f)) + Advance(Resolution(f)) + Advance(f.hardware) <= buf.Length
    requires Short(Speed(f)) && Short(Resolution(f))
    modifies buf
    ensures at == start + Advance(Speed(f)) + Advance(Resolution(f)) + Advance(f.hardware)
    ensures AllShort(f) && Holds(old(buf[..]), head, start, before) ==>
              Holds(buf[..], head, at, before + OptOf(8, Speed(f)) + OptOf(9, Resolution(f)) + OptOf(15, f.hardware))
  {
    hide Holds, Advance, OptOf, Short, Speed, Resolution;
    at := AddIf(buf, start, 8, Speed(f), head, before);
    ghost var opts := before + OptOf(8, Speed(f));
    at := AddIf(buf, at, 9, Resolution(f), head, opts);
    opts := opts + OptOf(9, Resolution(f));
    at := AddIf(buf, at, 15, f.hardware, head, opts);
  }

  method LayOutIdb(buf: array<byte>, snapLen: nat, f: Fields)
    requires buf.Length == IdbLength(f) && Wellformed(f) && buf[..][10..12] == LE(0, 2)
    modifies buf
    ensures AllShort(f) ==> Complete(buf[..], IdbHead(buf.Length, snapLen), IdbOpts(f))
  {
    PassesAgree(f);
    FixedFields(f);
    hide Measured, Holds, Complete, Advance, IdbHead, OptOf, Short, LE, Speed, Resolution, AllShort, Written;
    PutIdbHead(buf, snapLen);
    ghost var head := IdbHead(buf.Length, snapLen);
    WholeWrite(old(buf[..]), buf[..], head);
    HeaderOnly(buf[..], head);
    var at := PutDescriptions(buf, f, head);
    ghost var opts := OptOf(2, f.name) + OptOf(3, f.description) + OptOf(6, f.mac);
    at := PutProperties(buf, at, f, head, opts);
    ghost var filled := buf[..];
    assert buf[4..8] == filled[4..8];
    FinishBlock(buf, at, buf[4..8]);
    if AllShort(f) {
      Finished(filled, buf[..], head, at, IdbOpts(f));
    }
  }

  lemma IdbIff(block: seq<byte>, snapLen: nat, f: Fields)
    requires |block| == IdbLength(f) && Wellformed(f) && snapLen < 0x1_0000
    requires AllShort(f) ==> Complete(block, IdbHead(|block|, snapLen), IdbOpts(f))
    ensures Encodes(block, Idb(1, snapLen, IdbOpts(f))) <==> AllShort(f)
  {
    PassesAgree(f);
    FixedFields(f);
    hide Measured, Complete, Encodes, IdbHead, OptOf, Short, Advance, Speed, Resolution;
    var b := Idb(1, snapLen, IdbOpts(f));
    if AllShort(f) {
      ShortIsBounded(f.name);
      ShortIsBounded(f.description);
      ShortIsBounded(f.hardware);
      IdbReads(block, snapLen, b.opts);
    }
    if Encodes(block, b) {
      EncodedValueIsShort(block, b, 2, f.name);
      EncodedValueIsShort(block, b, 3, f.description);
      EncodedValueIsShort(block, b, 15, f.hardware);
    }
  }

  lemma ZeroField(s: seq<byte>)
    requires |s| >= 12 && forall i | 0 <= i < |s| :: s[i] == 0
    ensures s[10..12] == LE(0, 2)
  {
    assert LE(0, 2) == [0, 0];
  }

  /** pcapng_write_idb(): an Ethernet interface with these options, exactly when every string
      is shorter than 65536 bytes. */
  method WriteIdb(snapLen: nat, f: Fields) returns (block: seq<byte>)
    requires snapLen < 0x1_0000 && Wellformed(f)
    ensures |block| == IdbLength(f)
    ensures Encodes(block, Idb(1, snapLen, IdbOpts(f))) <==>
            Short(f.name) && Short(f.description) && Short(f.hardware)
  {
    hide OptionLength, Complete, Encodes, IdbHead, OptOf, Short, OptionBytes;
    EndBytes();
    var length := 16;
    if f.name.Some? {
      length := length + OptionLength(|f.name.value|);
    }
    if f.description.Some? {
      length := length + OptionLength(|f.description.value|);
    }
    if f.mac.Some? {
      length := length + OptionLength(6);
    }
    if f.speed != 0 {
      length := length + OptionLength(8);
    }
    if f.tsResolution != 6 && f.tsResolution != 0 {
      length := length + OptionLength(1);
    }
    if f.hardware.Some? {
      length := length + OptionLength(|f.hardware.value|);
    }
    length := length + OptionLength(0);
    length := length + 4;

    var buf := new byte[length](_ => 0);
    ZeroField(buf[..]);
    LayOutIdb(buf, snapLen, f);
    block := buf[..];
    IdbIff(block, snapLen, f);
  }
}
