/** Jenkins' hash (headers/linux/jhash.h), on a little-endian machine. */
module Jhash {

  import opened Common
  import opened Words

  type Word = w: int | 0 <= w < 0x1_0000_0000

  datatype State = State(a: Word, b: Word, c: Word)

  // ---------------------------------------------------------------------------
  // 32-bit operations

  function Add(x: Word, y: Word): Word {
    (x as int + y as int) % U32
  }

  function Sub(x: Word, y: Word): Word {
    (x as int - y as int) % U32
  }

  function Xor(x: Word, y: Word): Word {
    Pow2Of32();
    XorBound(x, y, 32);
    BitXor(x, y)
  }

  /** rol32(): the high bits come back in at the bottom. */
  function Rol(word: Word, shift: nat): Word
    requires 0 < shift < 32
  {
    (word as int * Pow2(shift) + word as int / Pow2(32 - shift)) % U32
  }

  /** The word, cut in two: the upper k bits and the rest. */
  function Upper(w: Word, k: nat): nat
    requires k <= 32
  {
    Quotient(w, Pow2(32 - k))
  }

  function Lower(w: Word, k: nat): nat
    requires k <= 32
  {
    Remainder(w, Pow2(32 - k))
  }

  lemma TwoParts(w: Word, p: nat, r: nat)
    requires p >= 1 && r >= 1 && p * r == U32
    ensures var h, l := w as int / r, w as int % r; h < p && (w as int * p + h) % U32 == l * p + h
  {
    var h, l := w as int / r, w as int % r;
    PartsFit(w, p, r, h, l);
    UniqueRemainder(w as int * p + h, U32, h, l * p + h);
  }

  lemma PartsFit(w: nat, p: nat, r: nat, h: nat, l: nat)
    requires p >= 1 && r >= 1 && p * r == U32 && w == r * h + l && l < r && w < U32
    ensures h < p && l * p + h < U32 && w * p == U32 * h + l * p
  {
    MulBound(r, h - p);
    assert r * (h - p) == r * h - p * r;
    MulBound(p, r - l);
    assert p * (r - l) == p * r - l * p;
  }

  /** The parts change places. */
  lemma RolParts(w: Word, k: nat)
    requires 0 < k < 32
    ensures Upper(w, k) < Pow2(k) && Lower(w, k) < Pow2(32 - k)
    ensures w as int == Upper(w, k) * Pow2(32 - k) + Lower(w, k)
    ensures Rol(w, k) == Lower(w, k) * Pow2(k) + Upper(w, k)
  {
    hide Pow2;
    Pow2Of32();
    Pow2Divides(k, 32);
    TwoParts(w, Pow2(k), Pow2(32 - k));
  }

  /** rol32() moves every bit up by the distance, round the end of the word. */
  lemma RolMovesBits(w: Word, k: nat, i: nat)
    requires 0 < k < 32 && i < 32
    ensures Bit(Rol(w, k), (i + k) % 32) == Bit(w, i)
  {
    hide Pow2, Rol, Bit, Upper, Lower;
    RolParts(w, k);
    var h, l := Upper(w, k), Lower(w, k);
    var j := if i < 32 - k then i else i + k - 32;
    BitsOfParts(h, l, 32 - k, j);
    BitsOfParts(l, h, k, j);
  }

  lemma SubUndoesAdd(x: Word, y: Word)
    ensures Sub(Add(x, y), y) == x && Add(Sub(x, y), y) == x
  {
  }

  lemma XorUndoesItself(x: Word, y: Word)
    ensures Xor(Xor(x, y), y) == x
  {
    XorTwice(x, y);
  }

  // ---------------------------------------------------------------------------
  // Mixing

  /** One line of __jhash_mix: x -= y; x ^= rol32(y, k); y += z. */
  function MixX(x: Word, y: Word, k: nat): Word
    requires 0 < k < 32
  {
    Xor(Sub(x, y), Rol(y, k))
  }

  function UnmixX(x: Word, y: Word, k: nat): Word
    requires 0 < k < 32
  {
    Add(Xor(x, Rol(y, k)), y)
  }

  lemma MixXInverse(x: Word, y: Word, k: nat)
    requires 0 < k < 32
    ensures UnmixX(MixX(x, y, k), y, k) == x && MixX(UnmixX(x, y, k), y, k) == x
  {
    var r := Rol(y, k);
    hide Rol, Xor, Sub, Add;
    XorUndoesItself(Sub(x, y), r);
    SubUndoesAdd(x, y);
    SubUndoesAdd(Xor(x, r), y);
    XorUndoesItself(x, r);
  }

  /** One line, with the words in the roles of the first. */
  function Line(s: State, k: nat): State
    requires 0 < k < 32
  {
    State(MixX(s.a, s.c, k), s.b, Add(s.c, s.b))
  }

  function Unline(s: State, k: nat): State
    requires 0 < k < 32
  {
    var c := Sub(s.c, s.b);
    State(UnmixX(s.a, c, k), s.b, c)
  }

  function Rotate(s: State): State {
    State(s.b, s.c, s.a)
  }

  function Unrotate(s: State): State {
    State(s.c, s.a, s.b)
  }

  lemma LineInverse(s: State, k: nat)
    requires 0 < k < 32
    ensures Unline(Line(s, k), k) == s && Line(Unline(s, k), k) == s
  {
    MixXInverse(s.a, s.c, k);
    MixXInverse(s.a, Sub(s.c, s.b), k);
    SubUndoesAdd(s.c, s.b);
    hide MixX, UnmixX, Add, Sub;
  }

  /** __jhash_mix: each line is the one before with the roles of a, b and c moved on. */
  function Mix(s: State): State {
    var s1 := Rotate(Line(s, 4));
    var s2 := Rotate(Line(s1, 6));
    var s3 := Rotate(Line(s2, 8));
    var s4 := Rotate(Line(s3, 16));
    var s5 := Rotate(Line(s4, 19));
    Rotate(Line(s5, 4))
  }

  function Unmix(s: State): State {
    var s5 := Unline(Unrotate(s), 4);
    var s4 := Unline(Unrotate(s5), 19);
    var s3 := Unline(Unrotate(s4), 16);
    var s2 := Unline(Unrotate(s3), 8);
    var s1 := Unline(Unrotate(s2), 6);
    Unline(Unrotate(s1), 4)
  }

  lemma TurnInverse(s: State, k: nat)
    requires 0 < k < 32
    ensures Unline(Unrotate(Rotate(Line(s, k))), k) == s && Rotate(Line(Unline(Unrotate(s), k), k)) == s
  {
    LineInverse(s, k);
    LineInverse(Unrotate(s), k);
    hide Line, Unline;
  }

  /** Mixing a block loses nothing: it is a bijection on the three words. */
  lemma MixBijective(s: State)
    ensures Unmix(Mix(s)) == s && Mix(Unmix(s)) == s
  {
    hide Line, Unline, Rotate, Unrotate;
    var s1 := Rotate(Line(s, 4));
    var s2 := Rotate(Line(s1, 6));
    var s3 := Rotate(Line(s2, 8));
    var s4 := Rotate(Line(s3, 16));
    var s5 := Rotate(Line(s4, 19));
    TurnInverse(s, 4);
    TurnInverse(s1, 6);
    TurnInverse(s2, 8);
    TurnInverse(s3, 16);
    TurnInverse(s4, 19);
    TurnInverse(s5, 4);
    var t5 := Unline(Unrotate(s), 4);
    var t4 := Unline(Unrotate(t5), 19);
    var t3 := Unline(Unrotate(t4), 16);
    var t2 := Unline(Unrotate(t3), 8);
    var t1 := Unline(Unrotate(t2), 6);
    TurnInverse(t5, 19);
    TurnInverse(t4, 16);
    TurnInverse(t3, 8);
    TurnInverse(t2, 6);
    TurnInverse(t1, 4);
  }

  /** The macro, assignment by assignment. */
  method JhashMix(a0: Word, b0: Word, c0: Word) returns (a: Word, b: Word, c: Word)
    ensures State(a, b, c) == Mix(State(a0, b0, c0))
  {
    hide Rol, Add, Sub, Xor;
    a, b, c := a0, b0, c0;
    a := Sub(a, c); a := Xor(a, Rol(c, 4)); c := Add(c, b);
    b := Sub(b, a); b := Xor(b, Rol(a, 6)); a := Add(a, c);
    c := Sub(c, b); c := Xor(c, Rol(b, 8)); b := Add(b, a);
    a := Sub(a, c); a := Xor(a, Rol(c, 16)); c := Add(c, b);
    b := Sub(b, a); b := Xor(b, Rol(a, 19)); a := Add(a, c);
    c := Sub(c, b); c := Xor(c, Rol(b, 4)); b := Add(b, a);
  }

  /** One line of __jhash_final: x ^= y; x -= rol32(y, k). */
  function FoldX(x: Word, y: Word, k: nat): Word
    requires 0 < k < 32
  {
    Sub(Xor(x, y), Rol(y, k))
  }

  function UnfoldX(x: Word, y: Word, k: nat): Word
    requires 0 < k < 32
  {
    Xor(Add(x, Rol(y, k)), y)
  }

  lemma FoldXInverse(x: Word, y: Word, k: nat)
    requires 0 < k < 32
    ensures UnfoldX(FoldX(x, y, k), y, k) == x && FoldX(UnfoldX(x, y, k), y, k) == x
  {
    var r := Rol(y, k);
    hide Rol, Xor, Sub, Add;
    XorUndoesItself(x, y);
    SubUndoesAdd(Xor(x, y), r);
    SubUndoesAdd(x, r);
    XorUndoesItself(Add(x, r), y);
  }

  /** __jhash_final */
  function FinalMix(s: State): State {
    var c := FoldX(s.c, s.b, 14);
    var a := FoldX(s.a, c, 11);
    var b := FoldX(s.b, a, 25);
    var c1 := FoldX(c, b, 16);
    var a1 := FoldX(a, c1, 4);
    var b1 := FoldX(b, a1, 14);
    State(a1, b1, FoldX(c1, b1, 24))
  }

  function Unfinal(s: State): State {
    var c1 := UnfoldX(s.c, s.b, 24);
    var b := UnfoldX(s.b, s.a, 14);
    var a := UnfoldX(s.a, c1, 4);
    var c := UnfoldX(c1, b, 16);
    var b0 := UnfoldX(b, a, 25);
    var a0 := UnfoldX(a, c, 11);
    State(a0, b0, UnfoldX(c, b0, 14))
  }

  /** The final mix loses nothing either. */
  lemma FinalBijective(s: State)
    ensures Unfinal(FinalMix(s)) == s && FinalMix(Unfinal(s)) == s
  {
    FinalUndone(s);
    FinalReached(s);
  }

  lemma FinalUndone(s: State)
    ensures Unfinal(FinalMix(s)) == s
  {
    hide FoldX, UnfoldX;
    var c := FoldX(s.c, s.b, 14);
    var a := FoldX(s.a, c, 11);
    var b := FoldX(s.b, a, 25);
    var c1 := FoldX(c, b, 16);
    var a1 := FoldX(a, c1, 4);
    var b1 := FoldX(b, a1, 14);
    FoldXInverse(c1, b1, 24);
    FoldXInverse(b, a1, 14);
    FoldXInverse(a, c1, 4);
    FoldXInverse(c, b, 16);
    FoldXInverse(s.b, a, 25);
    FoldXInverse(s.a, c, 11);
    FoldXInverse(s.c, s.b, 14);
  }

  lemma FinalReached(s: State)
    ensures FinalMix(Unfinal(s)) == s
  {
    hide FoldX, UnfoldX;
    var c1 := UnfoldX(s.c, s.b, 24);
    var b := UnfoldX(s.b, s.a, 14);
    var a := UnfoldX(s.a, c1, 4);
    var c := UnfoldX(c1, b, 16);
    var b0 := UnfoldX(b, a, 25);
    FoldXInverse(s.c, s.b, 24);
    FoldXInverse(s.b, s.a, 14);
    FoldXInverse(s.a, c1, 4);
    FoldXInverse(c1, b, 16);
    FoldXInverse(b, a, 25);
    FoldXInverse(a, c, 11);
    FoldXInverse(c, b0, 14);
  }

  /** The macro, assignment by assignment. */
  method JhashFinal(a0: Word, b0: Word, c0: Word) returns (a: Word, b: Word, c: Word)
    ensures State(a, b, c) == FinalMix(State(a0, b0, c0))
  {
    hide Rol, Sub, Xor;
    a, b, c := a0, b0, c0;
    c := Xor(c, b); c := Sub(c, Rol(b, 14));
    a := Xor(a, c); a := Sub(a, Rol(c, 11));
    b := Xor(b, a); b := Sub(b, Rol(a, 25));
    c := Xor(c, b); c := Sub(c, Rol(b, 16));
    a := Xor(a, c); a := Sub(a, Rol(c, 4));
    b := Xor(b, a); b := Sub(b, Rol(a, 14));
    c := Xor(c, b); c := Sub(c, Rol(b, 24));
  }

  // ---------------------------------------------------------------------------
  // Hashing words

  const JHASH_INITVAL: Word := 0xdeadbeef

  function Start(length: nat, initval: Word): State {
    var v := (JHASH_INITVAL as int + length + initval as int) % U32;
    State(v, v, v)
  }

  function Absorb(s: State, x: Word, y: Word, z: Word): State {
    State(Add(s.a, x), Add(s.b, y), Add(s.c, z))
  }

  function At(ws: seq<Word>, i: nat): Word {
    if i < |ws| then ws[i] else 0
  }

  /** The three words in the end: blocks of three words are mixed in, and what is left goes through the final
      mix, unless there was nothing to hash at all. */
  function Ending(ws: seq<Word>, s: State): State {
    if |ws| > 3 then Ending(ws[3..], Mix(Absorb(s, ws[0], ws[1], ws[2])))
    else if ws == [] then s
    else FinalMix(Absorb(s, At(ws, 0), At(ws, 1), At(ws, 2)))
  }

  function HashWords(ws: seq<Word>, s: State): Word {
    Ending(ws, s).c
  }

  lemma AddInjective(x: Word, y: Word, z: Word)
    requires Add(x, z) == Add(y, z) || Add(z, x) == Add(z, y)
    ensures x == y
  {
  }

  lemma AbsorbInjective(s: State, t: State, x: Word, y: Word, z: Word)
    requires Absorb(s, x, y, z) == Absorb(t, x, y, z)
    ensures s == t
  {
    hide Add;
    AddInjective(s.a, t.a, x);
    AddInjective(s.b, t.b, y);
    AddInjective(s.c, t.c, z);
  }

  lemma MixInjective(s: State, t: State)
    ensures Mix(s) == Mix(t) ==> s == t
    ensures FinalMix(s) == FinalMix(t) ==> s == t
  {
    hide Mix, Unmix, FinalMix, Unfinal;
    MixBijective(s);
    MixBijective(t);
    FinalBijective(s);
    FinalBijective(t);
  }

  /** Different states stay different whatever is hashed next. */
  lemma {:induction false} StatesStayApart(ws: seq<Word>, s: State, t: State)
    requires s != t
    ensures Ending(ws, s) != Ending(ws, t)
    decreases |ws|
  {
    hide Mix, FinalMix, Absorb;
    if |ws| > 3 {
      var s1, t1 := Absorb(s, ws[0], ws[1], ws[2]), Absorb(t, ws[0], ws[1], ws[2]);
      if s1 == t1 { AbsorbInjective(s, t, ws[0], ws[1], ws[2]); }
      MixInjective(s1, t1);
      StatesStayApart(ws[3..], Mix(s1), Mix(t1));
    } else if ws != [] {
      var s1, t1 := Absorb(s, At(ws, 0), At(ws, 1), At(ws, 2)), Absorb(t, At(ws, 0), At(ws, 1), At(ws, 2));
      if s1 == t1 { AbsorbInjective(s, t, At(ws, 0), At(ws, 1), At(ws, 2)); }
      MixInjective(s1, t1);
    }
  }

  lemma BlocksApart(s: State, ws: seq<Word>, vs: seq<Word>)
    requires |ws| == |vs| && exists i | 0 <= i < 3 && i < |ws| :: ws[i] != vs[i]
    ensures Absorb(s, At(ws, 0), At(ws, 1), At(ws, 2)) != Absorb(s, At(vs, 0), At(vs, 1), At(vs, 2))
  {
    hide Add;
    var i :| 0 <= i < 3 && i < |ws| && ws[i] != vs[i];
    var z := if i == 0 then s.a else if i == 1 then s.b else s.c;
    if Add(z, ws[i]) == Add(z, vs[i]) { AddInjective(ws[i], vs[i], z); }
  }

  /** Keys of the same length that differ within one block of three words end in different states. */
  lemma {:induction false} OneBlockTells(ws: seq<Word>, vs: seq<Word>, s: State, block: nat)
    requires |ws| == |vs| && ws != vs
    requires forall i | 0 <= i < |ws| && i / 3 != block :: ws[i] == vs[i]
    ensures Ending(ws, s) != Ending(vs, s)
    decreases |ws|
  {
    var i :| 0 <= i < |ws| && ws[i] != vs[i];
    assert i / 3 == block;
    var s1, t1 := Absorb(s, At(ws, 0), At(ws, 1), At(ws, 2)), Absorb(s, At(vs, 0), At(vs, 1), At(vs, 2));
    hide Mix, FinalMix, Absorb;
    if block == 0 {
      BlocksApart(s, ws, vs);
      MixInjective(s1, t1);
      if |ws| > 3 {
        SameTail(ws, vs);
        StatesStayApart(ws[3..], Mix(s1), Mix(t1));
      }
    } else {
      assert ws[0] == vs[0] && ws[1] == vs[1] && ws[2] == vs[2];
      assert ws[3..][i - 3] != vs[3..][i - 3];
      forall k | 0 <= k < |ws[3..]| && k / 3 != block - 1
        ensures ws[3..][k] == vs[3..][k]
      {
        assert (k + 3) / 3 != block;
      }
      OneBlockTells(ws[3..], vs[3..], Mix(s1), block - 1);
    }
  }

  lemma SameTail(ws: seq<Word>, vs: seq<Word>)
    requires |ws| == |vs| > 3 && forall i | 0 <= i < |ws| && i / 3 != 0 :: ws[i] == vs[i]
    ensures ws[3..] == vs[3..]
  {
    forall k | 0 <= k < |ws| - 3
      ensures ws[3..][k] == vs[3..][k]
    {
      assert (k + 3) / 3 != 0;
    }
  }

  lemma AddZero(x: Word)
    ensures Add(x, 0) == x
  {
  }

  /** jhash2(): the length in words is shifted in 32 bits. */
  method Jhash2(key: seq<Word>, initval: Word) returns (hash: Word)
    requires |key| < U32
    ensures hash == HashWords(key, Start(4 * |key| % U32, initval))
  {
    hide Mix, FinalMix, Add;
    var k := key;
    var length := |key|;
    var seed := Start(4 * length % U32, initval);
    var a, b, c := seed.a, seed.b, seed.c;
    while length > 3
      invariant length == |k|
      invariant Ending(key, seed) == Ending(k, State(a, b, c))
    {
      a := Add(a, k[0]);
      b := Add(b, k[1]);
      c := Add(c, k[2]);
      a, b, c := JhashMix(a, b, c);
      length := length - 3;
      k := k[3..];
    }
    AddZero(b);
    AddZero(c);
    if length >= 3 {
      c := Add(c, k[2]);
    }
    if length >= 2 {
      b := Add(b, k[1]);
    }
    if length >= 1 {
      a := Add(a, k[0]);
      a, b, c := JhashFinal(a, b, c);
    }
    return c;
  }

  /** __jhash_nwords() */
  method JhashNwords(a: Word, b: Word, c: Word, initval: Word) returns (hash: Word)
    ensures hash == FinalMix(Absorb(State(initval, initval, initval), a, b, c)).c
  {
    AddCommutes(a, initval);
    AddCommutes(b, initval);
    AddCommutes(c, initval);
    hide FinalMix, Add;
    var x, y, z := JhashFinal(Add(a, initval), Add(b, initval), Add(c, initval));
    return z;
  }

  lemma AddCommutes(x: Word, y: Word)
    ensures Add(x, y) == Add(y, x)
  {
  }

  function Seed(initval: Word, n: nat): Word {
    (initval as int + JHASH_INITVAL as int + 4 * n) % U32
  }

  /** jhash_3words(), jhash_2words() and jhash_1word() are jhash2() of three, two and one words. */
  method Jhash3Words(a: Word, b: Word, c: Word, initval: Word) returns (hash: Word)
    ensures hash == HashWords([a, b, c], Start(4 * 3, initval))
  {
    hide FinalMix, Add;
    hash := JhashNwords(a, b, c, Seed(initval, 3));
  }

  method Jhash2Words(a: Word, b: Word, initval: Word) returns (hash: Word)
    ensures hash == HashWords([a, b], Start(4 * 2, initval))
  {
    hide FinalMix, Add;
    hash := JhashNwords(a, b, 0, Seed(initval, 2));
  }

  method Jhash1Word(a: Word, initval: Word) returns (hash: Word)
    ensures hash == HashWords([a], Start(4 * 1, initval))
  {
    hide FinalMix, Add;
    hash := JhashNwords(a, 0, 0, Seed(initval, 1));
  }

  // ---------------------------------------------------------------------------
  // Hashing bytes

  function ByteAt(key: seq<byte>, i: nat): byte {
    if i < |key| then key[i] else 0
  }

  /** The little-endian word at a byte offset, with zeros beyond the end. */
  function Load(key: seq<byte>, at: nat): Word {
    ByteAt(key, at) as int + 0x100 * ByteAt(key, at + 1) as int + 0x1_0000 * ByteAt(key, at + 2) as int +
    0x100_0000 * ByteAt(key, at + 3) as int
  }

  /** The key padded with zero bytes to whole words. */
  function Padded(key: seq<byte>): (ws: seq<Word>)
    ensures |ws| == (|key| + 3) / 4
  {
    seq((|key| + 3) / 4, i requires i >= 0 => Load(key, 4 * i))
  }

  lemma PaddedTail(key: seq<byte>)
    requires |key| >= 12
    ensures Padded(key[12..]) == Padded(key)[3..]
  {
    var k := key[12..];
    forall i | 0 <= i < |Padded(k)|
      ensures Padded(k)[i] == Padded(key)[i + 3]
    {
      assert Load(k, 4 * i) == Load(key, 4 * i + 12);
    }
  }

  /** The bytes of a word of the last block are added one at a time, high byte first. */
  method AddBytes(x: Word, key: seq<byte>, at: nat) returns (r: Word)
    ensures r == Add(x, Load(key, at))
  {
    ghost var b0, b1, b2, b3 := ByteAt(key, at), ByteAt(key, at + 1), ByteAt(key, at + 2), ByteAt(key, at + 3);
    ghost var u3: Word := 0x100_0000 * b3 as int;
    ghost var u2: Word := u3 + 0x1_0000 * b2 as int;
    ghost var u1: Word := u2 + 0x100 * b1 as int;
    AddZero(x);
    AddTwice(x, u3, 0x1_0000 * b2 as int);
    AddTwice(x, u2, 0x100 * b1 as int);
    AddTwice(x, u1, b0);
    hide Add;
    r := x;
    if |key| >= at + 4 {
      r := Add(r, 0x100_0000 * key[at + 3] as int);
    }
    assert r == Add(x, u3);
    if |key| >= at + 3 {
      r := Add(r, 0x1_0000 * key[at + 2] as int);
    }
    assert r == Add(x, u2);
    if |key| >= at + 2 {
      r := Add(r, 0x100 * key[at + 1] as int);
    }
    assert r == Add(x, u1);
    if |key| >= at + 1 {
      r := Add(r, key[at]);
    }
  }

  lemma AddTwice(x: Word, u: Word, v: int)
    requires 0 <= v && u as int + v < U32
    ensures Add(Add(x, u), v) == Add(x, u as int + v)
  {
  }

  /** jhash(): the hash of the zero-padded words, seeded with the length in bytes. */
  method JhashBytes(key: seq<byte>, initval: Word) returns (hash: Word)
    requires |key| < U32
    ensures hash == HashWords(Padded(key), Start(|key|, initval))
  {
    hide Mix, FinalMix, Add, Load;
    var k := key;
    var length := |key|;
    var seed := Start(length, initval);
    var a, b, c := seed.a, seed.b, seed.c;
    while length > 12
      invariant length == |k|
      invariant Ending(Padded(key), seed) == Ending(Padded(k), State(a, b, c))
    {
      PaddedTail(k);
      a := Add(a, Load(k, 0));
      b := Add(b, Load(k, 4));
      c := Add(c, Load(k, 8));
      a, b, c := JhashMix(a, b, c);
      length := length - 12;
      k := k[12..];
    }
    LastBlock(k, State(a, b, c));
    c := AddBytes(c, k, 8);
    b := AddBytes(b, k, 4);
    a := AddBytes(a, k, 0);
    if length >= 1 {
      a, b, c := JhashFinal(a, b, c);
    }
    return c;
  }

  lemma LastBlock(k: seq<byte>, s: State)
    requires |k| <= 12
    ensures HashWords(Padded(k), s) ==
            if k == [] then Add(s.c, Load(k, 8)) else FinalMix(Absorb(s, Load(k, 0), Load(k, 4), Load(k, 8))).c
  {
    AddZero(s.c);
    hide Add, FinalMix, Mix;
    var ws := Padded(k);
    assert At(ws, 0) == Load(k, 0);
    assert At(ws, 1) == Load(k, 4);
    assert At(ws, 2) == Load(k, 8);
  }

  /** The little-endian bytes of an array of words. */
  function Bytes(ws: seq<Word>): (k: seq<byte>)
    ensures |k| == 4 * |ws|
  {
    seq(4 * |ws|, i requires 0 <= i < 4 * |ws| => ByteOf(ws[i / 4], i % 4))
  }

  function ByteOf(w: Word, i: nat): byte
    requires i < 4
  {
    match i
    case 0 => w % 0x100
    case 1 => w / 0x100 % 0x100
    case 2 => w / 0x1_0000 % 0x100
    case _ => w / 0x100_0000 % 0x100
  }

  lemma PaddedBytes(ws: seq<Word>)
    ensures Padded(Bytes(ws)) == ws
  {
    var k := Bytes(ws);
    forall i | 0 <= i < |ws|
      ensures Padded(k)[i] == ws[i]
    {
      assert forall j | 0 <= j < 4 :: ByteAt(k, 4 * i + j) == ByteOf(ws[i], j);
      WordFromBytes(ws[i]);
    }
  }

  lemma WordFromBytes(w: Word)
    ensures w == ByteOf(w, 0) as int + 0x100 * ByteOf(w, 1) as int + 0x1_0000 * ByteOf(w, 2) as int +
                 0x100_0000 * ByteOf(w, 3) as int
  {
    var q1 := w as int / 0x100;
    var q2 := q1 / 0x100;
    var q3 := q2 / 0x100;
    assert w as int / 0x1_0000 == q2;
    assert w as int / 0x100_0000 == q3 < 0x100;
    assert ByteOf(w, 1) == q1 % 0x100 && ByteOf(w, 2) == q2 % 0x100 && ByteOf(w, 3) == q3;
  }

  /** jhash2() of fewer than 2^30 words is jhash() of their bytes. */
  lemma FormsAgree(ws: seq<Word>, initval: Word)
    requires |ws| < 0x4000_0000
    ensures HashWords(ws, Start(4 * |ws| % U32, initval)) ==
            HashWords(Padded(Bytes(ws)), Start(|Bytes(ws)|, initval))
  {
    PaddedBytes(ws);
    hide HashWords;
  }

  /** An empty key is not mixed: its hash is the initial value plus the constant. */
  lemma EmptyKey(initval: Word)
    ensures HashWords(Padded([]), Start(0, initval)) == (0xdeadbeef + initval as int) % 0x1_0000_0000
  {
  }
}
