/** A reader for the parts of draft-ietf-opsawg-pcapng that xpcapng.c writes: the general
    block structure (section 3.1), options (section 3.5), and the section header,
    interface description and enhanced packet blocks (sections 4.1 to 4.3), in files
    written on a little-endian host. */
module PcapNgFormat {
  import opened Common

  function Pow256(k: nat): (r: nat)
    ensures r >= 1
  {
    if k == 0 then 1 else 256 * Pow256(k - 1)
  }

  /** The k low bytes of n, least significant first. */
  function LE(n: nat, k: nat): (s: seq<byte>)
    ensures |s| == k
  {
    if k == 0 then [] else [n % 256] + LE(n / 256, k - 1)
  }

  function FromLE(s: seq<byte>): nat {
    if s == [] then 0 else s[0] + 256 * FromLE(s[1..])
  }

  /** A number that fits its field is read back unchanged, and only such a number is. */
  lemma {:induction false} LERoundTrip(n: nat, k: nat)
    ensures FromLE(LE(n, k)) == n <==> n < Pow256(k)
    ensures FromLE(LE(n, k)) < Pow256(k)
  {
    if k > 0 {
      LERoundTrip(n / 256, k - 1);
      assert LE(n, k)[1..] == LE(n / 256, k - 1);
    }
  }

  lemma Pow256Values()
    ensures Pow256(2) == 0x1_0000 && Pow256(4) == 0x1_0000_0000 && Pow256(8) == 0x1_0000_0000_0000_0000
  {
    assert Pow256(4) == 256 * (256 * (256 * (256 * Pow256(0))));
    assert Pow256(8) == 256 * (256 * (256 * (256 * Pow256(4))));
  }

  // ---------------------------------------------------------------------------
  // Blocks and options

  datatype Opt = Opt(code: nat, data: seq<byte>)

  datatype Block =
    | Shb(opts: seq<Opt>)
    | Idb(linkType: nat, snapLen: nat, opts: seq<Opt>)
    | Epb(ifid: nat, timestamp: nat, origLen: nat, pkt: seq<byte>, opts: seq<Opt>)

  function RoundUp4(n: nat): nat {
    (n + 3) / 4 * 4
  }

  /** pcapng_get_option_length(): header, data and padding. */
  function OptionLength(len: nat): nat {
    RoundUp4(4 + len)
  }

  function Field(s: seq<byte>, at: nat, n: nat): nat
    requires at + n <= |s|
  {
    FromLE(s[at..at + n])
  }

  /** Options up to and including opt_endofopt, which must be the last four bytes. */
  function ParseOptions(s: seq<byte>): Option<seq<Opt>>
    decreases |s|
  {
    if |s| < 4 then None
    else
      var code := Field(s, 0, 2);
      var len := Field(s, 2, 2);
      if code == 0 then (if len == 0 && |s| == 4 then Some([]) else None)
      else
        var n := OptionLength(len);
        if |s| < n then None
        else
          var rest := ParseOptions(s[n..]);
          if rest.None? then None else Some([Opt(code, s[4..4 + len])] + rest.value)
  }

  function ParseShb(body: seq<byte>): Option<Block> {
    if |body| < 16 || Field(body, 0, 4) != 0x1A2B3C4D || Field(body, 4, 2) != 1 || Field(body, 6, 2) != 0 then None
    else
      var opts := ParseOptions(body[16..]);
      if opts.None? then None else Some(Shb(opts.value))
  }

  function ParseIdb(body: seq<byte>): Option<Block> {
    if |body| < 8 then None
    else
      var opts := ParseOptions(body[8..]);
      if opts.None? then None else Some(Idb(Field(body, 0, 2), Field(body, 4, 4), opts.value))
  }

  function ParseEpb(body: seq<byte>): Option<Block> {
    if |body| < 20 then None
    else
      var cap := Field(body, 12, 4);
      if |body| < 20 + RoundUp4(cap) then None
      else
        var opts := ParseOptions(body[20 + RoundUp4(cap)..]);
        if opts.None? then None
        else Some(Epb(Field(body, 0, 4), Field(body, 4, 4) * 0x1_0000_0000 + Field(body, 8, 4),
                      Field(body, 16, 4), body[20..20 + cap], opts.value))
  }

  /** The length of the block at the start of s: a multiple of four, the same before and
      after the body, and not beyond the end. */
  function BlockLength(s: seq<byte>): (r: Option<nat>)
    ensures r.Some? ==> 12 <= r.value <= |s|
  {
    if |s| < 12 then None
    else
      var len := Field(s, 4, 4);
      if len < 12 || len % 4 != 0 || len > |s| || Field(s, len - 4, 4) != len then None else Some(len)
  }

  function ParseBlock(s: seq<byte>, len: nat): Option<Block>
    requires 12 <= len <= |s|
  {
    var body := s[8..len - 4];
    var code := Field(s, 0, 4);
    if code == 0x0A0D0D0A then ParseShb(body)
    else if code == 1 then ParseIdb(body)
    else if code == 6 then ParseEpb(body)
    else None
  }

  function ParseFile(s: seq<byte>): Option<seq<Block>>
    decreases |s|
  {
    if s == [] then Some([])
    else
      var len := BlockLength(s);
      if len.None? then None
      else
        var b := ParseBlock(s, len.value);
        var rest := ParseFile(s[len.value..]);
        if b.None? || rest.None? then None else Some([b.value] + rest.value)
  }

  /** These bytes are one whole block, and a reader finds b in it. */
  ghost predicate Encodes(s: seq<byte>, b: Block) {
    BlockLength(s) == Some(|s|) && ParseBlock(s, |s|) == Some(b)
  }

  lemma BlockWithTail(s: seq<byte>, t: seq<byte>, len: nat)
    requires BlockLength(s) == Some(len)
    ensures BlockLength(s + t) == Some(len)
    ensures 12 <= len <= |s| && ParseBlock(s + t, len) == ParseBlock(s, len)
    ensures (s + t)[len..] == s[len..] + t
  {
    hide ParseShb, ParseIdb, ParseEpb, FromLE;
    var u := s + t;
    assert u[4..4 + 4] == s[4..4 + 4] && u[0..0 + 4] == s[0..0 + 4];
    assert u[len - 4..len - 4 + 4] == s[len - 4..len - 4 + 4];
    assert u[8..len - 4] == s[8..len - 4];
  }

  /** Blocks do not run into each other: appending one appends what is read. */
  lemma {:induction false} ParseFileAppend(s: seq<byte>, t: seq<byte>, bs: seq<Block>, b: Block)
    requires ParseFile(s) == Some(bs) && Encodes(t, b)
    ensures ParseFile(s + t) == Some(bs + [b])
    decreases |s|
  {
    hide ParseBlock, BlockLength;
    if s == [] {
      assert s + t == t;
      assert t[|t|..] == [];
      assert ParseFile(t[|t|..]) == Some([]);
      assert bs + [b] == [b] + [];
    } else {
      var len := BlockLength(s).value;
      BlockWithTail(s, t, len);
      ParseFileAppend(s[len..], t, bs[1..], b);
      assert bs + [b] == [bs[0]] + (bs[1..] + [b]);
    }
  }

  lemma TornBlock(t: seq<byte>, b: Block, n: nat)
    requires Encodes(t, b) && n < |t|
    ensures BlockLength(t[..n]).None?
  {
    hide ParseBlock, FromLE;
    if n >= 12 {
      assert t[..n][4..4 + 4] == t[4..4 + 4];
    }
  }

  /** A file that ends in a part of a block cannot be read. */
  lemma {:induction false} ParseFileTorn(s: seq<byte>, t: seq<byte>, bs: seq<Block>, b: Block, n: nat)
    requires ParseFile(s) == Some(bs) && Encodes(t, b) && 0 < n < |t|
    ensures ParseFile(s + t[..n]).None?
    decreases |s|
  {
    hide ParseBlock, BlockLength;
    TornBlock(t, b, n);
    if s == [] {
      assert s + t[..n] == t[..n];
    } else {
      var len := BlockLength(s).value;
      BlockWithTail(s, t[..n], len);
      ParseFileTorn(s[len..], t, bs[1..], b, n);
    }
  }
}
