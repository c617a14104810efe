/** Unsigned 32-bit words and the arithmetic of masks and wrap-around. */
module Words {

  const U32: int := 0x1_0000_0000

  function Wrap(x: int): (r: nat)
    ensures r < U32
  {
    x % U32
  }

  function Pow2(k: nat): (r: nat)
    ensures r >= 1
  {
    if k == 0 then 1 else 2 * Pow2(k - 1)
  }

  function Quotient(x: nat, d: nat): nat
    requires d >= 1
  {
    x / d
  }

  function Remainder(x: nat, d: nat): nat
    requires d >= 1
  {
    x % d
  }

  /** Bitwise and of two non-negative numbers. */
  function BitAnd(x: nat, y: nat): nat
    decreases x
  {
    if x == 0 then 0 else 2 * BitAnd(x / 2, y / 2) + (x % 2) * (y % 2)
  }

  /** Bitwise exclusive or. */
  function BitXor(x: nat, y: nat): nat
    decreases x + y
  {
    if x == 0 && y == 0 then 0 else 2 * BitXor(x / 2, y / 2) + (x + y) % 2
  }

  lemma {:induction false} XorBound(x: nat, y: nat, k: nat)
    requires x < Pow2(k) && y < Pow2(k)
    ensures BitXor(x, y) < Pow2(k)
  {
    if k > 0 && (x > 0 || y > 0) {
      XorBound(x / 2, y / 2, k - 1);
    }
  }

  lemma {:induction false} XorTwice(x: nat, y: nat)
    ensures BitXor(BitXor(x, y), y) == x
    decreases x + y
  {
    if x > 0 || y > 0 {
      XorTwice(x / 2, y / 2);
      var h := BitXor(x / 2, y / 2);
      var z := BitXor(x, y);
      assert z == 2 * h + (x + y) % 2;
      XorParts(z, y, h, (x + y) % 2);
      hide BitXor;
      Parity(x, y);
    }
  }

  lemma Parity(x: nat, y: nat)
    ensures ((x + y) % 2 + y) % 2 == x % 2
  {
  }

  lemma SameParity(h: nat, m: nat)
    ensures (2 * h + m) % 2 == m % 2
  {
  }

  lemma XorParts(z: nat, y: nat, h: nat, bit: nat)
    requires z == 2 * h + bit && bit < 2
    ensures BitXor(z, y) == 2 * BitXor(h, y / 2) + (bit + y) % 2
  {
    assert z / 2 == h;
    SameParity(h, bit + y);
    if z == 0 && y == 0 {
      assert BitXor(h, y / 2) == 0;
    } else {
      assert BitXor(z, y) == 2 * BitXor(z / 2, y / 2) + (z + y) % 2;
      hide BitXor;
    }
  }

  lemma {:induction false} MaskIsModulo(x: nat, k: nat)
    ensures BitAnd(x, Pow2(k) - 1) == x % Pow2(k)
  {
    if x == 0 {
      assert 0 % Pow2(k) == 0;
    } else if k == 0 {
      AndZero(x);
    } else {
      var h := Pow2(k - 1);
      MaskIsModulo(x / 2, k - 1);
      assert (Pow2(k) - 1) / 2 == h - 1 && (Pow2(k) - 1) % 2 == 1;
      assert BitAnd(x, Pow2(k) - 1) == 2 * BitAnd(x / 2, h - 1) + x % 2;
      hide BitAnd;
      HalvesModulo(x, h);
    }
  }

  lemma {:induction false} AndAtMost(x: nat, y: nat)
    ensures BitAnd(x, y) <= y
  {
    if x != 0 {
      AndAtMost(x / 2, y / 2);
      var a, b := x % 2, y % 2;
      assert a == 0 ==> a * b == 0;
      assert a == 1 ==> a * b == b;
    }
  }

  lemma {:induction false} AndZero(x: nat)
    ensures BitAnd(x, 0) == 0
  {
    if x != 0 {
      AndZero(x / 2);
    }
  }

  lemma HalvesModulo(x: nat, h: nat)
    requires h >= 1
    ensures x % (2 * h) == 2 * ((x / 2) % h) + x % 2
  {
    var q, r := (x / 2) / h, (x / 2) % h;
    assert x == 2 * (q * h + r) + x % 2;
    UniqueRemainder(x, 2 * h, q, 2 * r + x % 2);
  }

  lemma MulBound(m: nat, d: int)
    ensures d >= 1 ==> m * d >= m
    ensures d <= -1 ==> m * d <= 0 - m
    ensures d == 0 ==> m * d == 0
  {
    if d >= 1 {
      assert m * d == m + m * (d - 1);
    } else if d <= -1 {
      assert m * d == 0 - m + m * (d + 1);
    }
  }

  lemma UniqueRemainder(x: int, m: nat, q: int, r: int)
    requires m >= 1 && 0 <= r < m && x == m * q + r
    ensures x % m == r && x / m == q
  {
    var d := x / m - q;
    assert m * d == m * (x / m) - m * q;
    MulBound(m, d);
  }

  lemma {:induction false} Pow2Divides(k: nat, n: nat)
    requires k <= n
    ensures Pow2(n) == Pow2(k) * Pow2(n - k)
  {
    if k < n {
      Pow2Divides(k, n - 1);
      assert Pow2(n) == 2 * (Pow2(k) * Pow2(n - 1 - k)) == Pow2(k) * (2 * Pow2(n - 1 - k));
    }
  }

  lemma Pow2Of32()
    ensures Pow2(32) == U32
  {
    assert Pow2(8) == 256;
    Pow2Divides(8, 16);
    Pow2Divides(16, 32);
  }

  lemma ModuloOfModulo(i: nat, m: nat, n: nat)
    requires m >= 1 && n >= 1
    ensures m * n >= 1 && (i % (m * n)) % m == i % m
  {
    MulBound(m, n);
    var q, r := i / (m * n), i % (m * n);
    assert m * n * q == m * (n * q);
    assert m * (n * q) + m * (r / m) == m * (n * q + r / m);
    UniqueRemainder(i, m, n * q + r / m, r % m);
  }

  /** Wrapping an index does not move its slot. */
  lemma WrapKeepsSlot(i: nat, k: nat)
    requires k <= 32
    ensures Wrap(i) % Pow2(k) == i % Pow2(k)
  {
    Pow2Of32();
    Pow2Divides(k, 32);
    ModuloOfModulo(i, Pow2(k), Pow2(32 - k));
  }

  /** Indices less than a ring apart have different slots. */
  lemma DistinctSlots(i: nat, j: nat, size: nat)
    requires size >= 1 && i < j < i + size
    ensures i % size != j % size
  {
    var d := j / size - i / size;
    assert size * d == size * (j / size) - size * (i / size);
    MulBound(size, d);
  }

  /** The difference of two wrapped counters is the difference of the counters. */
  lemma WrapDifference(x: nat, y: nat)
    requires 0 <= x - y < U32
    ensures Wrap(Wrap(x) - Wrap(y)) == x - y
  {
  }

  lemma WrapSum(x: int, y: int)
    ensures Wrap(Wrap(x) + y) == Wrap(x + y)
    ensures Wrap(Wrap(x) - y) == Wrap(x - y)
  {
  }

  // ---------------------------------------------------------------------------
  // Bits

  function Bit(x: nat, i: nat): nat {
    x / Pow2(i) % 2
  }

  lemma BitNext(x: nat, i: nat)
    ensures Bit(x, i + 1) == Bit(x / 2, i)
  {
    var p := Pow2(i);
    DivideTwice(x, 2, p);
  }

  lemma Digits(m: nat, n: nat, q: nat, r: nat, s: nat)
    requires r < n && s < m
    ensures m * (n * q + r) + s == m * n * q + (m * r + s) && m * r + s < m * n
  {
    MulBound(m, n - r);
    assert m * r + m * (n - r) == m * n;
    assert m * (n * q) == m * n * q;
  }

  lemma DivideTwice(x: nat, m: nat, n: nat)
    requires m >= 1 && n >= 1
    ensures m * n >= 1 && x / (m * n) == x / m / n
  {
    var y := x / m;
    var q, r, s := y / n, y % n, x % m;
    Digits(m, n, q, r, s);
    UniqueRemainder(x, m * n, q, m * r + s);
  }

  lemma XorHalves(x: nat, y: nat)
    ensures BitXor(x, y) / 2 == BitXor(x / 2, y / 2) && BitXor(x, y) % 2 == (x + y) % 2
  {
  }

  lemma BitZero(x: nat)
    ensures Bit(x, 0) == x % 2
  {
  }

  /** A bit of the exclusive or is set where exactly one of the two is. */
  lemma {:induction false} XorBits(x: nat, y: nat, i: nat)
    ensures Bit(BitXor(x, y), i) == (Bit(x, i) + Bit(y, i)) % 2
    decreases i
  {
    hide BitXor, Bit;
    XorHalves(x, y);
    if i > 0 {
      XorBits(x / 2, y / 2, i - 1);
      BitNext(x, i - 1);
      BitNext(y, i - 1);
      BitNext(BitXor(x, y), i - 1);
    } else {
      BitZero(x);
      BitZero(y);
      BitZero(BitXor(x, y));
    }
  }

  /** A number put together of a high and a low part has the bits of both. */
  lemma BitsOfParts(high: nat, low: nat, n: nat, i: nat)
    requires low < Pow2(n)
    ensures Bit(high * Pow2(n) + low, n + i) == Bit(high, i)
    ensures i < n ==> Bit(high * Pow2(n) + low, i) == Bit(low, i)
  {
    hide Pow2;
    HighBit(high, low, n, i);
    if i < n {
      Pow2Divides(i, n);
      Doubled(n - i);
      LowBit(high, low, Pow2(i), Pow2(n - i - 1));
    }
  }

  lemma Doubled(n: nat)
    requires n >= 1
    ensures Pow2(n) == 2 * Pow2(n - 1)
  {
  }

  lemma HighBit(high: nat, low: nat, n: nat, i: nat)
    requires low < Pow2(n)
    ensures Bit(high * Pow2(n) + low, n + i) == Bit(high, i)
  {
    hide Pow2;
    Pow2Divides(n, n + i);
    QuotientOfParts(high, low, Pow2(n), Pow2(i));
  }

  lemma QuotientOfParts(high: nat, low: nat, p: nat, q: nat)
    requires p >= 1 && q >= 1 && low < p
    ensures p * q >= 1 && (high * p + low) / (p * q) == high / q
  {
    var x := high * p + low;
    DivideTwice(x, p, q);
    UniqueRemainder(x, p, high, low);
  }

  lemma LowBit(high: nat, low: nat, p: nat, q: nat)
    requires p >= 1
    ensures (high * (p * (2 * q)) + low) / p % 2 == low / p % 2
  {
    var x, r := high * (p * (2 * q)) + low, low % p;
    var d := high * q;
    assert x == p * (2 * d + low / p) + r;
    UniqueRemainder(x, p, 2 * d + low / p, r);
  }
}
