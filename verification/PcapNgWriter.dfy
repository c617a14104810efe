/** The PcapNG writer of xpcapng.c: block lengths are added up in a first pass, the bytes
    are laid out in a second. */
module PcapNgWriter {
  import opened Common
  import opened PcapNgFormat

  const SECTION_BLOCK: nat := 0x0A0D0D0A
  const INTERFACE_BLOCK: nat := 1
  const ENHANCED_PACKET_BLOCK: nat := 6
  const BYTE_ORDER_MAGIC: nat := 0x1A2B3C4D

  const END: seq<byte> := [0, 0, 0, 0]

  // ---------------------------------------------------------------------------
  // Runs of options

  ghost predicate OneOption(t: seq<byte>, o: Opt) {
    && 0 < o.code < 0x1_0000 && |o.data| < 0x1_0000
    && |t| == OptionLength(|o.data|)
    && t[..4 + |o.data|] == LE(o.code, 2) + LE(|o.data|, 2) + o.data
  }

  lemma OneOptionFields(t: seq<byte>, o: Opt)
    requires OneOption(t, o)
    ensures Field(t, 0, 2) == o.code && Field(t, 2, 2) == |o.data| && t[4..4 + |o.data|] == o.data
  {
    Pow256Values();
    LERoundTrip(o.code, 2);
    LERoundTrip(|o.data|, 2);
    hide LE;
    var n := 4 + |o.data|;
    ThreeParts(LE(o.code, 2), LE(|o.data|, 2), o.data);
    SliceOfPrefix(t, n, 0, 2);
    SliceOfPrefix(t, n, 2, 4);
    SliceOfPrefix(t, n, 4, n);
  }

  lemma ThreeParts(a: seq<byte>, b: seq<byte>, c: seq<byte>)
    requires |a| == 2 && |b| == 2
    ensures var s := a + b + c; s[0..2] == a && s[2..4] == b && s[4..|s|] == c
  {
  }

  lemma EndParses()
    ensures ParseOptions(END) == Some([])
  {
    assert FromLE([0, 0]) == 0;
    assert END[0..2] == [0, 0] && END[2..4] == [0, 0];
  }

  lemma HeadOption(t: seq<byte>, o: Opt, rest: seq<byte>)
    requires OneOption(t, o)
    ensures ParseOptions(t + rest) ==
            (var r := ParseOptions(rest); if r.None? then None else Some([o] + r.value))
  {
    OneOptionFields(t, o);
    var u := t + rest;
    assert u[0..0 + 2] == t[0..0 + 2] && u[2..2 + 2] == t[2..2 + 2];
    assert u[4..4 + |o.data|] == t[4..4 + |o.data|];
    assert u[|t|..] == rest;
  }

  /** s holds these options and nothing else, padding bytes being whatever they are. */
  ghost predicate LaidOut(s: seq<byte>, opts: seq<Opt>)
    decreases |opts|
  {
    if opts == [] then s == []
    else
      var n := OptionLength(|opts[0].data|);
      n <= |s| && OneOption(s[..n], opts[0]) && LaidOut(s[n..], opts[1..])
  }

  lemma {:induction false} LaidOutAppend(s: seq<byte>, opts: seq<Opt>, t: seq<byte>, o: Opt)
    requires LaidOut(s, opts) && OneOption(t, o)
    ensures LaidOut(s + t, opts + [o])
    decreases |opts|
  {
    hide OneOption;
    if opts == [] {
      assert s + t == t && opts + [o] == [o];
      assert |t| == OptionLength(|o.data|) by {
        OneOptionLength(t, o);
      }
      assert t[..|t|] == t && t[|t|..] == [];
      assert LaidOut(t[|t|..], [o][1..]);
    } else {
      var n := OptionLength(|opts[0].data|);
      assert (s + t)[..n] == s[..n] && (s + t)[n..] == s[n..] + t;
      assert (opts + [o])[1..] == opts[1..] + [o];
      LaidOutAppend(s[n..], opts[1..], t, o);
    }
  }

  lemma OneOptionLength(t: seq<byte>, o: Opt)
    requires OneOption(t, o)
    ensures |t| == OptionLength(|o.data|)
  {
  }

  /** A run of options followed by opt_endofopt is read back as those options. */
  lemma {:induction false} LaidOutParses(s: seq<byte>, opts: seq<Opt>)
    requires LaidOut(s, opts)
    ensures ParseOptions(s + END) == Some(opts)
    decreases |opts|
  {
    hide ParseOptions, OneOption, OptionLength;
    if opts == [] {
      EndParses();
      assert s + END == END;
    } else {
      var n := OptionLength(|opts[0].data|);
      LaidOutParses(s[n..], opts[1..]);
      HeadOption(s[..n], opts[0], s[n..] + END);
      assert s + END == s[..n] + (s[n..] + END);
      assert opts == [opts[0]] + opts[1..];
    }
  }

  lemma {:induction false} ParsedOptionsAreShort(s: seq<byte>, opts: seq<Opt>)
    requires ParseOptions(s) == Some(opts)
    ensures forall o | o in opts :: |o.data| < 0x1_0000
    decreases |s|
  {
    if opts != [] {
      var n := OptionLength(Field(s, 2, 2));
      Pow256Values();
      FieldBound(s, 2, 2);
      ParsedOptionsAreShort(s[n..], opts[1..]);
      assert opts == [opts[0]] + opts[1..];
    }
  }

  lemma FieldBound(s: seq<byte>, at: nat, n: nat)
    requires at + n <= |s|
    ensures Field(s, at, n) < Pow256(n)
  {
    FromLEBound(s[at..at + n]);
  }

  lemma {:induction false} FromLEBound(s: seq<byte>)
    ensures FromLE(s) < Pow256(|s|)
  {
    if s != [] {
      FromLEBound(s[1..]);
    }
  }

  // ---------------------------------------------------------------------------
  // Writing into a buffer

  /** t is s with d written at an offset. */
  ghost predicate Written(s: seq<byte>, t: seq<byte>, at: nat, d: seq<byte>) {
    && |s| == |t| && at + |d| <= |s|
    && t[..at] == s[..at] && t[at..at + |d|] == d && t[at + |d|..] == s[at + |d|..]
  }

  /** Writing one thing behind another is writing both. */
  lemma TwoWrites(s: seq<byte>, t: seq<byte>, u: seq<byte>, at: nat, d: seq<byte>, e: seq<byte>)
    requires Written(s, t, at, d) && Written(t, u, at + |d|, e)
    ensures Written(s, u, at, d + e)
  {
    var n, m := at + |d|, at + |d| + |e|;
    SameBefore(t, u, at, n);
    SameBehind(s, t, n, m);
    Paste(u, at, n, m);
    assert at + |d + e| == m;
  }

  lemma SameBefore(s: seq<byte>, t: seq<byte>, i: nat, j: nat)
    requires |s| == |t| && i <= j <= |s| && t[..j] == s[..j]
    ensures t[..i] == s[..i] && t[i..j] == s[i..j]
  {
    Cut(s, i, j);
    Cut(t, i, j);
  }

  lemma SameBehind(s: seq<byte>, t: seq<byte>, i: nat, j: nat)
    requires |s| == |t| && i <= j <= |s| && t[i..] == s[i..]
    ensures t[j..] == s[j..]
  {
    Cut(s, i, j);
    Cut(t, i, j);
  }

  lemma Cut(s: seq<byte>, i: nat, j: nat)
    requires i <= j <= |s|
    ensures s[..j][..i] == s[..i] && s[..j][i..] == s[i..j] && s[i..][j - i..] == s[j..]
  {
  }

  lemma Paste(s: seq<byte>, i: nat, j: nat, k: nat)
    requires i <= j <= k <= |s|
    ensures s[i..k] == s[i..j] + s[j..k]
  {
  }

  lemma WholeWrite(s: seq<byte>, t: seq<byte>, d: seq<byte>)
    requires Written(s, t, 0, d)
    ensures t[..|d|] == d
  {
    assert t[0..|d|] == t[..|d|];
  }

  /** Stores the k low bytes of n. */
  method PutLE(buf: array<byte>, at: nat, n: nat, k: nat)
    requires at + k <= buf.Length
    modifies buf
    ensures Written(old(buf[..]), buf[..], at, LE(n, k))
  {
    var rest := n;
    var i := 0;
    ghost var done: seq<byte> := [];
    while i < k
      invariant 0 <= i <= k && |done| == i
      invariant LE(n, k) == done + LE(rest, k - i)
      invariant Written(old(buf[..]), buf[..], at, done)
    {
      ghost var before, digit := buf[..], rest % 256;
      buf[at + i] := rest % 256;
      assert Written(before, buf[..], at + i, [digit]);
      TwoWrites(old(buf[..]), before, buf[..], at, done, [digit]);
      assert done + LE(rest, k - i) == done + [digit] + LE(rest / 256, k - i - 1);
      done := done + [digit];
      rest := rest / 256;
      i := i + 1;
    }
    assert done + LE(rest, k - i) == done;
  }

  /** memcpy(). */
  method PutBytes(buf: array<byte>, at: nat, data: seq<byte>)
    requires at + |data| <= buf.Length
    modifies buf
    ensures Written(old(buf[..]), buf[..], at, data)
  {
    forall i | 0 <= i < |data| {
      buf[at + i] := data[i];
    }
    assert buf[..][at..at + |data|] == data;
  }

  /** The bytes of an option without its padding, the length cut to 16 bits. */
  ghost function OptionBytes(code: nat, data: seq<byte>): seq<byte> {
    var len := |data| % 0x1_0000;
    LE(code, 2) + LE(len, 2) + data[..len]
  }

  /** pcapng_add_option(): the length argument is a uint16_t. */
  method AddOption(buf: array<byte>, at: nat, code: nat, data: seq<byte>) returns (next: nat)
    requires at + 4 + |data| % 0x1_0000 <= buf.Length
    modifies buf
    ensures next == at + OptionLength(|data| % 0x1_0000)
    ensures Written(old(buf[..]), buf[..], at, OptionBytes(code, data))
  {
    hide LE, OptionLength, Written;
    var len := |data| % 0x1_0000;
    PutLE(buf, at, code, 2);
    ghost var b1 := buf[..];
    PutLE(buf, at + 2, len, 2);
    ghost var b2 := buf[..];
    TwoWrites(old(buf[..]), b1, b2, at, LE(code, 2), LE(len, 2));
    PutBytes(buf, at + 4, data[..len]);
    TwoWrites(old(buf[..]), b2, buf[..], at, LE(code, 2) + LE(len, 2), data[..len]);
    next := at + OptionLength(len);
  }

  /** What an optional value contributes to the list of options. */
  function OptOf(code: nat, data: Option<seq<byte>>): seq<Opt> {
    if data.Some? then [Opt(code, data.value)] else []
  }

  /** The first pass: size_t lengths. */
  function Measured(data: Option<seq<byte>>): nat {
    if data.Some? then OptionLength(|data.value|) else 0
  }

  /** The second pass: uint16_t lengths. */
  function Advance(data: Option<seq<byte>>): nat {
    if data.Some? then OptionLength(|data.value| % 0x1_0000) else 0
  }

  predicate Short(data: Option<seq<byte>>) {
    data.Some? ==> |data.value| < 0x1_0000
  }

  lemma RoundUp4Bound(n: nat)
    ensures n <= RoundUp4(n) < n + 4 && RoundUp4(n) % 4 == 0
  {
  }

  /** The passes agree on a value exactly when its length fits in 16 bits. */
  lemma PassesAgreeIffShort(data: Option<seq<byte>>)
    ensures Advance(data) <= Measured(data)
    ensures Advance(data) == Measured(data) <==> Short(data)
    ensures Measured(data) % 4 == 0
  {
    hide RoundUp4;
    if data.Some? {
      var n := |data.value|;
      RoundUp4Bound(4 + n);
      RoundUp4Bound(4 + n % 0x1_0000);
      assert n >= 0x1_0000 ==> n % 0x1_0000 <= n - 0x1_0000;
    }
  }

  lemma AlignedSum(a: nat, b: nat)
    requires a % 4 == 0 && b % 4 == 0
    ensures (a + b) % 4 == 0
  {
  }

  /** The buffer holds the fixed header, then these options up to at. */
  ghost predicate Holds(s: seq<byte>, head: seq<byte>, at: nat, opts: seq<Opt>) {
    |head| <= at <= |s| && s[..|head|] == head && LaidOut(s[|head|..at], opts)
  }

  lemma OptionWritten(s: seq<byte>, t: seq<byte>, at: nat, next: nat, code: nat, data: seq<byte>)
    requires Written(s, t, at, OptionBytes(code, data)) && |data| < 0x1_0000 && 0 < code < 0x1_0000
    requires next == at + OptionLength(|data|) <= |t|
    ensures OneOption(t[at..next], Opt(code, data))
  {
    hide LE;
    assert data[..|data|] == data;
    assert t[at..next][..4 + |data|] == t[at..at + 4 + |data|];
  }

  lemma HoldsMore(s: seq<byte>, t: seq<byte>, head: seq<byte>, at: nat, next: nat, opts: seq<Opt>, o: Opt)
    requires Holds(s, head, at, opts) && at <= next <= |t| && s[..at] == t[..at] && OneOption(t[at..next], o)
    ensures Holds(t, head, next, opts + [o])
  {
    hide OneOption, LaidOut;
    assert t[..|head|] == t[..at][..|head|] == s[..|head|];
    assert t[|head|..at] == t[..at][|head|..] == s[|head|..at];
    LaidOutAppend(s[|head|..at], opts, t[at..next], o);
    assert t[|head|..next] == t[|head|..at] + t[at..next];
  }

  lemma OptionRoom(n: nat)
    ensures 4 + n <= OptionLength(n)
  {
  }

  /** An option that is written only when there is a value for it. */
  method AddIf(buf: array<byte>, at: nat, code: nat, data: Option<seq<byte>>,
               ghost head: seq<byte>, ghost opts: seq<Opt>) returns (next: nat)
    requires at + Advance(data) <= buf.Length && 0 < code < 0x1_0000
    modifies buf
    ensures next == at + Advance(data)
    ensures Short(data) && Holds(old(buf[..]), head, at, opts) ==> Holds(buf[..], head, next, opts + OptOf(code, data))
  {
    hide Holds, OneOption, OptionBytes, OptionLength;
    next := at;
    if data.Some? {
      OptionRoom(|data.value| % 0x1_0000);
      next := AddOption(buf, at, code, data.value);
      if Short(data) && Holds(old(buf[..]), head, at, opts) {
        OptionWritten(old(buf[..]), buf[..], at, next, code, data.value);
        HoldsMore(old(buf[..]), buf[..], head, at, next, opts, Opt(code, data.value));
      }
    } else {
      assert opts + OptOf(code, data) == opts;
    }
  }

  /** A finished block: the header, the options, opt_endofopt, the block length again. */
  ghost predicate Complete(block: seq<byte>, head: seq<byte>, opts: seq<Opt>) {
    && |block| >= |head| + 8 && |head| >= 8
    && block == head + block[|head|..|block| - 8] + END + head[4..8]
    && LaidOut(block[|head|..|block| - 8], opts)
  }

  lemma EndBytes()
    ensures OptionBytes(0, []) == END && OptionLength(0) == 4
  {
    assert LE(0, 2) == [0, 0];
  }

  /** opt_endofopt, then the block length once more. */
  method FinishBlock(buf: array<byte>, at: nat, last: seq<byte>)
    requires at + 8 <= buf.Length && |last| == 4
    modifies buf
    ensures Written(old(buf[..]), buf[..], at, END + last)
  {
    EndBytes();
    hide Written, OptionBytes, OptionLength;
    var next := AddOption(buf, at, 0, []);
    ghost var b1 := buf[..];
    PutBytes(buf, next, last);
    TwoWrites(old(buf[..]), b1, buf[..], at, END, last);
  }

  lemma SliceOfPrefix(s: seq<byte>, n: nat, i: nat, j: nat)
    requires i <= j <= n <= |s|
    ensures s[..n][i..j] == s[i..j]
  {
  }

  lemma SliceOfSuffix(s: seq<byte>, n: nat, i: nat, j: nat)
    requires i <= j && n + j <= |s|
    ensures s[n..][i..j] == s[n + i..n + j]
  {
  }

  lemma Finished(s: seq<byte>, t: seq<byte>, head: seq<byte>, at: nat, opts: seq<Opt>)
    requires |head| >= 8 && at + 8 == |s| && Holds(s, head, at, opts) && Written(s, t, at, END + s[4..8])
    ensures Complete(t, head, opts)
  {
    hide LaidOut;
    SliceOfPrefix(s, |head|, 4, 8);
    Cut(s, |head|, at);
    Cut(t, |head|, at);
    assert s[..at] == s[..|head|] + s[|head|..at];
    assert t == t[..at] + t[at..at + 8];
  }

  // ---------------------------------------------------------------------------
  // From laid-out bytes to what a reader finds

  lemma FieldIs(s: seq<byte>, at: nat, n: nat, v: nat)
    requires at + n <= |s| && s[at..at + n] == LE(v, n) && v < Pow256(n)
    ensures Field(s, at, n) == v
  {
    LERoundTrip(v, n);
  }

  /** The four length and type fields and the extent of a finished block. */
  lemma BlockParts(block: seq<byte>, head: seq<byte>, opts: seq<Opt>)
    requires Complete(block, head, opts)
    ensures block[0..4] == head[0..4] && block[4..8] == head[4..8] && block[|block| - 4..|block|] == head[4..8]
    ensures block[8..|block| - 4] == head[8..] + block[|head|..|block| - 8] + END
  {
    hide LaidOut;
  }

  lemma BlockFromParts(block: seq<byte>, code: nat, head: seq<byte>, opts: seq<Opt>)
    requires Complete(block, head, opts) && head[0..4] == LE(code, 4) && head[4..8] == LE(|block|, 4)
    requires code < 0x1_0000_0000 && |block| < 0x1_0000_0000 && |block| % 4 == 0
    ensures BlockLength(block) == Some(|block|) && Field(block, 0, 4) == code
    ensures block[8..|block| - 4] == head[8..] + block[|head|..|block| - 8] + END
    ensures ParseOptions(block[|head|..|block| - 8] + END) == Some(opts)
  {
    hide LE, FromLE, LaidOut, Field, Pow256, ParseOptions;
    LaidOutParses(block[|head|..|block| - 8], opts);
    BlockParts(block, head, opts);
    Pow256Values();
    hide Complete;
    FieldIs(block, 0, 4, code);
    FieldIs(block, 4, 4, |block|);
    FieldIs(block, |block| - 4, 4, |block|);
  }

  lemma EncodedOptionsAreShort(block: seq<byte>, b: Block)
    requires Encodes(block, b)
    ensures forall o | o in b.opts :: |o.data| < 0x1_0000
  {
    var body := block[8..|block| - 4];
    hide ParseOptions, FromLE;
    match b {
      case Shb(opts) => ParsedOptionsAreShort(body[16..], opts);
      case Idb(_, _, opts) => ParsedOptionsAreShort(body[8..], opts);
      case Epb(_, _, _, _, opts) =>
        ParsedOptionsAreShort(body[20 + RoundUp4(Field(body, 12, 4))..], opts);
    }
  }

  lemma EncodedValueIsShort(block: seq<byte>, b: Block, code: nat, data: Option<seq<byte>>)
    requires Encodes(block, b) && forall o | o in OptOf(code, data) :: o in b.opts
    ensures Short(data)
  {
    hide Encodes;
    EncodedOptionsAreShort(block, b);
    if data.Some? {
      assert Opt(code, data.value) in OptOf(code, data);
    }
  }

  lemma HeaderOnly(s: seq<byte>, head: seq<byte>)
    requires |head| <= |s| && s[..|head|] == head
    ensures Holds(s, head, |head|, [])
  {
    assert s[|head|..|head|] == [];
  }

  lemma ShortIsBounded(data: Option<seq<byte>>)
    requires Short(data)
    ensures Measured(data) <= 0x1_0004
  {
  }

  // ---------------------------------------------------------------------------
  // Section header block

  const MAX_U64: nat := 0xFFFF_FFFF_FFFF_FFFF

  /** Byte order, version 1.0, section length not given. */
  ghost function ShbFixed(): (h: seq<byte>)
    ensures |h| == 16
  {
    LE(BYTE_ORDER_MAGIC, 4) + LE(1, 2) + LE(0, 2) + LE(MAX_U64, 8)
  }

  ghost function ShbHead(len: nat): (h: seq<byte>)
    ensures |h| == 24 && h[0..4] == LE(SECTION_BLOCK, 4) && h[4..8] == LE(len, 4)
  {
    hide LE, ShbFixed;
    LE(SECTION_BLOCK, 4) + LE(len, 4) + ShbFixed()
  }

  method PutShbHead(buf: array<byte>)
    requires buf.Length >= 24
    modifies buf
    ensures Written(old(buf[..]), buf[..], 0, ShbHead(buf.Length))
  {
    hide LE, Written;
    ghost var b0 := buf[..];
    PutLE(buf, 0, SECTION_BLOCK, 4);
    ghost var b1 := buf[..];
    PutLE(buf, 4, buf.Length, 4);
    ghost var b2 := buf[..];
    TwoWrites(b0, b1, b2, 0, LE(SECTION_BLOCK, 4), LE(buf.Length, 4));
    PutLE(buf, 8, BYTE_ORDER_MAGIC, 4);
    ghost var h, b := LE(BYTE_ORDER_MAGIC, 4), buf[..];
    PutLE(buf, 12, 1, 2);
    TwoWrites(b2, b, buf[..], 8, h, LE(1, 2));
    h, b := h + LE(1, 2), buf[..];
    PutLE(buf, 14, 0, 2);
    TwoWrites(b2, b, buf[..], 8, h, LE(0, 2));
    h, b := h + LE(0, 2), buf[..];
    PutLE(buf, 16, MAX_U64, 8);
    TwoWrites(b2, b, buf[..], 8, h, LE(MAX_U64, 8));
    TwoWrites(b0, b2, buf[..], 0, LE(SECTION_BLOCK, 4) + LE(buf.Length, 4), ShbFixed());
  }

  lemma ShbFields()
    ensures var f := ShbFixed(); f[0..4] == LE(BYTE_ORDER_MAGIC, 4) && f[4..6] == LE(1, 2) && f[6..8] == LE(0, 2)
  {
    hide LE;
  }

  lemma ShbReads(block: seq<byte>, opts: seq<Opt>)
    requires Complete(block, ShbHead(|block|), opts) && |block| < 0x1_0000_0000 && |block| % 4 == 0
    ensures Encodes(block, Shb(opts))
  {
    hide LE, FromLE, LaidOut, ParseOptions, Field, Pow256, ShbFixed;
    var head, fixed := ShbHead(|block|), ShbFixed();
    ShbFields();
    BlockFromParts(block, SECTION_BLOCK, head, opts);
    var inner := block[8..|block| - 4];
    Pow256Values();
    assert head[8..] == fixed;
    assert inner[0..0 + 4] == fixed[0..4];
    FieldIs(inner, 0, 4, BYTE_ORDER_MAGIC);
    assert inner[4..4 + 2] == fixed[4..6];
    FieldIs(inner, 4, 2, 1);
    assert inner[6..6 + 2] == fixed[6..8];
    FieldIs(inner, 6, 2, 0);
    assert inner[16..] == block[24..|block| - 8] + END;
  }

  ghost function ShbOpts(comment: Option<seq<byte>>, hardware: Option<seq<byte>>, os: Option<seq<byte>>,
                         application: Option<seq<byte>>): seq<Opt>
  {
    OptOf(1, comment) + OptOf(2, hardware) + OptOf(3, os) + OptOf(4, application)
  }

  /** The second pass. */
  method LayOutShb(buf: array<byte>, comment: Option<seq<byte>>, hardware: Option<seq<byte>>, os: Option<seq<byte>>,
                   application: Option<seq<byte>>)
    requires buf.Length == 32 + Measured(comment) + Measured(hardware) + Measured(os) + Measured(application)
    modifies buf
    ensures Short(comment) && Short(hardware) && Short(os) && Short(application) ==>
              Complete(buf[..], ShbHead(buf.Length), ShbOpts(comment, hardware, os, application))
  {
    PassesAgreeIffShort(comment);
    PassesAgreeIffShort(hardware);
    PassesAgreeIffShort(os);
    PassesAgreeIffShort(application);
    hide Measured, Holds, Complete, Advance, ShbHead, OptOf, Short, LE, Written;
    PutShbHead(buf);
    ghost var head := ShbHead(buf.Length);
    WholeWrite(old(buf[..]), buf[..], head);
    HeaderOnly(buf[..], head);
    var at := AddIf(buf, 24, 1, comment, head, []);
    ghost var opts := OptOf(1, comment);
    assert [] + OptOf(1, comment) == opts;
    at := AddIf(buf, at, 2, hardware, head, opts);
    opts := opts + OptOf(2, hardware);
    at := AddIf(buf, at, 3, os, head, opts);
    opts := opts + OptOf(3, os);
    at := AddIf(buf, at, 4, application, head, opts);
    opts := opts + OptOf(4, application);
    ghost var filled := buf[..];
    assert buf[4..8] == filled[4..8];
    FinishBlock(buf, at, buf[4..8]);
    if Holds(filled, head, at, opts) && at + 8 == buf.Length {
      Finished(filled, buf[..], head, at, opts);
    }
  }

  lemma ShbIff(block: seq<byte>, comment: Option<seq<byte>>, hardware: Option<seq<byte>>, os: Option<seq<byte>>,
               application: Option<seq<byte>>)
    requires |block| == 32 + Measured(comment) + Measured(hardware) + Measured(os) + Measured(application)
    requires Short(comment) && Short(hardware) && Short(os) && Short(application) ==>
               Complete(block, ShbHead(|block|), ShbOpts(comment, hardware, os, application))
    ensures Encodes(block, Shb(ShbOpts(comment, hardware, os, application))) <==>
            Short(comment) && Short(hardware) && Short(os) && Short(application)
  {
    hide Measured, Complete, Encodes, ShbHead, OptOf, Short, Advance;
    PassesAgreeIffShort(comment);
    PassesAgreeIffShort(hardware);
    PassesAgreeIffShort(os);
    PassesAgreeIffShort(application);
    AlignedSum(Measured(comment), Measured(hardware));
    AlignedSum(Measured(comment) + Measured(hardware), Measured(os));
    AlignedSum(Measured(comment) + Measured(hardware) + Measured(os), Measured(application));
    AlignedSum(32, Measured(comment) + Measured(hardware) + Measured(os) + Measured(application));
    var opts := ShbOpts(comment, hardware, os, application);
    if Short(comment) && Short(hardware) && Short(os) && Short(application) {
      ShortIsBounded(comment);
      ShortIsBounded(hardware);
      ShortIsBounded(os);
      ShortIsBounded(application);
      hide ShbOpts;
      ShbReads(block, opts);
    }
    if Encodes(block, Shb(opts)) {
      EncodedValueIsShort(block, Shb(opts), 1, comment);
      EncodedValueIsShort(block, Shb(opts), 2, hardware);
      EncodedValueIsShort(block, Shb(opts), 3, os);
      EncodedValueIsShort(block, Shb(opts), 4, application);
    }
  }

  /** The first pass of pcapng_write_shb(). */
  method MeasureShb(comment: Option<seq<byte>>, hardware: Option<seq<byte>>, os: Option<seq<byte>>,
                    application: Option<seq<byte>>) returns (length: nat)
    ensures length == 32 + Measured(comment) + Measured(hardware) + Measured(os) + Measured(application)
  {
    assert OptionLength(0) == 4;
    hide OptionLength;
    length := 24;
    if comment.Some? {
      length := length + OptionLength(|comment.value|);
    }
    if hardware.Some? {
      length := length + OptionLength(|hardware.value|);
    }
    if os.Some? {
      length := length + OptionLength(|os.value|);
    }
    if application.Some? {
      length := length + OptionLength(|application.value|);
    }
    length := length + OptionLength(0);
    length := length + 4;
  }

  /** pcapng_write_shb(): the block is well formed, with these options, exactly when every
      string is shorter than 65536 bytes. */
  method WriteShb(comment: Option<seq<byte>>, hardware: Option<seq<byte>>, os: Option<seq<byte>>,
                  application: Option<seq<byte>>) returns (block: seq<byte>)
    ensures |block| == 32 + Measured(comment) + Measured(hardware) + Measured(os) + Measured(application)
    ensures Encodes(block, Shb(OptOf(1, comment) + OptOf(2, hardware) + OptOf(3, os) + OptOf(4, application))) <==>
            Short(comment) && Short(hardware) && Short(os) && Short(application)
  {
    hide Complete, Encodes, ShbHead, OptOf, Short, Measured;
    var length := MeasureShb(comment, hardware, os, application);
    var buf := new byte[length](_ => 0);
    LayOutShb(buf, comment, hardware, os, application);
    block := buf[..];
    ShbIff(block, comment, hardware, os, application);
  }
}
