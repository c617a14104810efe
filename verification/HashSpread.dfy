/** How the hash functions of headers/linux/hashtable.h spread the keys over the buckets. */
module HashSpread {
  import opened Words
  import opened HashTable

  /** The inverse of the multiplier modulo 2^32. */
  const GOLDEN_INVERSE: nat := 0xEBB3_4377

  function Unscramble(y: nat): (r: nat)
    ensures r < U32
  {
    y * GOLDEN_INVERSE % U32
  }

  lemma ProductOfRemainder(x: nat, k: nat)
    ensures x % U32 * k % U32 == x * k % U32
  {
    var q, r := x / U32, x % U32;
    var s := r * k;
    assert x * k == U32 * (q * k) + s;
    UniqueRemainder(x * k, U32, q * k + s / U32, s % U32);
  }

  /** Multiplying by the constant and by its inverse is multiplying by one. */
  lemma RoundTrip(v: nat)
    requires v < U32
    ensures v * 0x61C8_8647 * 0xEBB3_4377 % U32 == v
  {
    assert 0x61C8_8647 * 0xEBB3_4377 == 1 + U32 * 1510444094;
    var m := v * 1510444094;
    assert v * 0x61C8_8647 * 0xEBB3_4377 == v * (0x61C8_8647 * 0xEBB3_4377) == U32 * m + v;
    UniqueRemainder(U32 * m + v, U32, m, v);
  }

  /** The product loses nothing: it is a bijection on the 32-bit words. */
  lemma ScrambleBijective(v: nat)
    requires v < U32
    ensures Unscramble(Scramble(v)) == v && Scramble(Unscramble(v)) == v
  {
    ProductOfRemainder(v * GOLDEN_RATIO_32, GOLDEN_INVERSE);
    ProductOfRemainder(v * GOLDEN_INVERSE, GOLDEN_RATIO_32);
    assert v * GOLDEN_INVERSE * GOLDEN_RATIO_32 == v * GOLDEN_RATIO_32 * GOLDEN_INVERSE;
    RoundTrip(v);
  }

  lemma QuotientIs(x: nat, p: nat, b: nat)
    requires p >= 1
    ensures Quotient(x, p) == b <==> b * p <= x < b * p + p
  {
    if b * p <= x < b * p + p {
      UniqueRemainder(x, p, b, x - b * p);
    }
  }

  /** The words whose high bits are b. */
  lemma HighIs(x: nat, bits: nat, b: nat)
    requires x < U32 && bits <= 32
    ensures High(x, bits) == b <==> b * Pow2(32 - bits) <= x < b * Pow2(32 - bits) + Pow2(32 - bits)
  {
    hide Pow2, Quotient;
    QuotientIs(x, Pow2(32 - bits), b);
  }

  lemma Room(p: nat, n: nat, b: nat)
    requires b < n
    ensures b * p + p <= p * n
  {
    var d := n - b - 1;
    assert p * n == p * b + p * d + p;
  }

  /** A bucket's words stay below 2^32. */
  lemma WordsOfBucket(bits: nat, b: nat)
    requires bits <= 32 && b < Pow2(bits)
    ensures b * Pow2(32 - bits) + Pow2(32 - bits) <= U32
  {
    hide Pow2;
    Pow2Of32();
    Pow2Divides(bits, 32);
    Room(Pow2(32 - bits), Pow2(bits), b);
  }

  /** The word that is cut down to an index, for a key that is first combined with a mask. */
  function Product(v: nat, mask: nat): (r: nat)
    ensures r < U32
  {
    Scramble(BitXor(v, mask))
  }

  /** The one key with this product. */
  function KeyOf(y: nat, mask: nat): nat {
    BitXor(Unscramble(y), mask)
  }

  lemma OneKeyEach(x: nat, mask: nat)
    requires x < U32 && mask < U32
    ensures KeyOf(x, mask) < U32 && Product(KeyOf(x, mask), mask) == x && KeyOf(Product(x, mask), mask) == x
  {
    hide BitXor, Scramble, Unscramble, Pow2;
    Pow2Of32();
    XorBound(Unscramble(x), mask, 32);
    XorBound(x, mask, 32);
    XorTwice(Unscramble(x), mask);
    XorTwice(x, mask);
    ScrambleBijective(x);
    ScrambleBijective(BitXor(x, mask));
  }

  /** The keys of the words from .. from + n. */
  ghost function KeysOf(from: nat, n: nat, mask: nat): set<nat> {
    if n == 0 then {} else KeysOf(from, n - 1, mask) + {KeyOf(from + n - 1, mask)}
  }

  lemma OnlyKey(y: nat, mask: nat, v: nat)
    requires y < U32 && mask < U32 && v < U32
    ensures Product(v, mask) == y <==> v == KeyOf(y, mask)
  {
    hide Product, KeyOf;
    OneKeyEach(y, mask);
    OneKeyEach(v, mask);
  }

  lemma {:induction false} KeysOfMembers(from: nat, n: nat, mask: nat)
    requires from + n <= U32 && mask < U32
    ensures forall v: nat :: v in KeysOf(from, n, mask) <==> v < U32 && from <= Product(v, mask) < from + n
    ensures |KeysOf(from, n, mask)| == n
  {
    hide Product, KeyOf;
    if n > 0 {
      KeysOfMembers(from, n - 1, mask);
      var last := from + n - 1;
      OneKeyEach(last, mask);
      forall v: nat | v < U32
        ensures Product(v, mask) == last <==> v == KeyOf(last, mask)
      {
        OnlyKey(last, mask, v);
      }
    }
  }

  /** Every bucket has the same share of the keys. */
  lemma Share(mask: nat, bits: nat, b: nat)
    requires mask < U32 && bits <= 32 && b < Pow2(bits)
    ensures |set v: nat | v < U32 && High(Product(v, mask), bits) == b| == Pow2(32 - bits)
  {
    var p := Pow2(32 - bits);
    WordsOfBucket(bits, b);
    hide Pow2, High, KeysOf, Product;
    KeysOfMembers(b * p, p, mask);
    forall v: nat | v < U32
      ensures High(Product(v, mask), bits) == b <==> v in KeysOf(b * p, p, mask)
    {
      HighIs(Product(v, mask), bits, b);
    }
    assert (set v: nat | v < U32 && High(Product(v, mask), bits) == b) == KeysOf(b * p, p, mask);
  }

  lemma {:induction false} XorZero(x: nat)
    ensures BitXor(x, 0) == x && BitXor(0, x) == x
  {
    if x > 0 {
      XorZero(x / 2);
    }
  }

  lemma {:induction false} XorSelf(x: nat)
    ensures BitXor(x, x) == 0
  {
    if x > 0 {
      XorSelf(x / 2);
    }
  }

  lemma Halves(high: nat, low: nat)
    requires high < U32 && low < U32
    ensures (high * U32 + low) / U32 == high && (high * U32 + low) % U32 == low
    ensures high * U32 + low < 0x1_0000_0000_0000_0000
  {
    UniqueRemainder(high * U32 + low, U32, high, low);
  }

  /** hash_min() of 32-bit keys: every bucket gets exactly 2^(32 - bits) of the 2^32 keys. */
  lemma NarrowEvenlySpread(bits: nat, b: nat)
    requires 1 <= bits <= 32 && b < Pow2(bits)
    ensures |set v: nat | v < U32 && HashMin(v, false, bits) == b| == Pow2(32 - bits)
  {
    hide Pow2, High, Scramble, BitXor;
    Share(0, bits, b);
    forall v: nat | v < U32
      ensures HashMin(v, false, bits) == High(Product(v, 0), bits)
    {
      XorZero(v);
    }
    hide HashMin, Product;
    assert (set v: nat | v < U32 && HashMin(v, false, bits) == b) ==
           (set v: nat | v < U32 && High(Product(v, 0), bits) == b);
  }

  /** hash_min() of 64-bit keys: the same of the keys with any one high half. */
  lemma WideEvenlySpread(bits: nat, b: nat, high: nat)
    requires 1 <= bits <= 32 && b < Pow2(bits) && high < U32
    ensures |set v: nat | v < U32 && WideIndex(high, v, bits) == b| == Pow2(32 - bits)
  {
    hide Pow2, High, Scramble, BitXor;
    Share(Scramble(high), bits, b);
    forall v: nat | v < U32
      ensures WideIndex(high, v, bits) == High(Product(v, Scramble(high)), bits)
    {
      Halves(high, v);
    }
    hide WideIndex, Product;
    assert (set v: nat | v < U32 && WideIndex(high, v, bits) == b) ==
           (set v: nat | v < U32 && High(Product(v, Scramble(high)), bits) == b);
  }

  /** The index of the key with these halves. */
  function WideIndex(high: nat, low: nat, bits: nat): nat
    requires high < U32 && low < U32 && 1 <= bits <= 32
  {
    Halves(high, low);
    HashMin(high * U32 + low, true, bits)
  }

  /** A key that fits 32 bits has the same index in a table of 64-bit keys, and the keys whose low half is
      the product of the high half are all in the first bucket. */
  lemma WideMeetsNarrow(key: nat, bits: nat)
    requires key < U32 && 1 <= bits <= 32
    ensures WideIndex(0, key, bits) == HashMin(key, false, bits)
    ensures WideIndex(key, key * 0x61C8_8647 % U32, bits) == 0
  {
    hide BitXor, High;
    Halves(0, key);
    Halves(key, Scramble(key));
    XorZero(key);
    XorSelf(Scramble(key));
    HighOfZero(bits);
  }

  lemma HighOfZero(bits: nat)
    requires bits <= 32
    ensures High(0, bits) == 0
  {
    HighIs(0, bits, 0);
  }
}
