/** The chained hash table of headers/linux/hashtable.h. */
module HashTable {
  import opened Words
  import opened Hlist

  const GOLDEN_RATIO_32: nat := 0x61C88647

  /** __hash_32(): a 32-bit product. */
  function Scramble(v: nat): (r: nat)
    ensures r < U32
  {
    v * GOLDEN_RATIO_32 % U32
  }

  lemma {:induction false} Pow2Sum(a: nat, b: nat)
    ensures Pow2(a + b) == Pow2(a) * Pow2(b)
  {
    if a > 0 {
      Pow2Sum(a - 1, b);
      assert Pow2(a + b) == 2 * (Pow2(a - 1) * Pow2(b));
    }
  }

  lemma QuotientBelow(x: nat, d: nat, p: nat)
    requires d >= 1 && x < d * p
    ensures x / d < p
  {
    var q := x / d;
    MulBound(d, q - p);
    assert d * q == d * p + d * (q - p);
    assert d * q <= x;
  }

  /** Shifting a 32-bit number right by 32 - bits leaves at most bits bits. */
  lemma HighBits(x: nat, bits: nat)
    requires x < U32 && bits <= 32
    ensures Quotient(x, Pow2(32 - bits)) < Pow2(bits)
  {
    Pow2Of32();
    Pow2Sum(32 - bits, bits);
    hide Pow2;
    QuotientBelow(x, Pow2(32 - bits), Pow2(bits));
  }

  /** x >> (32 - bits) */
  function High(x: nat, bits: nat): (r: nat)
    requires x < U32 && bits <= 32
    ensures r < Pow2(bits)
  {
    HighBits(x, bits);
    Quotient(x, Pow2(32 - bits))
  }

  /** hash_32() */
  function Hash32(v: nat, bits: nat): (r: nat)
    requires v < U32 && 1 <= bits <= 32
    ensures r < Pow2(bits)
  {
    High(Scramble(v), bits)
  }

  /** hash_64(), in the form with 32-bit products. */
  function Hash64(v: nat, bits: nat): (r: nat)
    requires v < 0x1_0000_0000_0000_0000 && 1 <= bits <= 32
    ensures r < Pow2(bits)
  {
    Pow2Of32();
    XorBound(v % U32, Scramble(v / U32), 32);
    Hash32(BitXor(v % U32, Scramble(v / U32)), bits)
  }

  /** hash_min(): by the width of the key's type. */
  function HashMin(key: nat, wide: bool, bits: nat): (r: nat)
    requires 1 <= bits <= 32 && (if wide then key < 0x1_0000_0000_0000_0000 else key < U32)
    ensures r < Pow2(bits)
  {
    if wide then Hash64(key, bits) else Hash32(key, bits)
  }

  // ---------------------------------------------------------------------------
  // The table

  ghost predicate NoRepeats(s: seq<HlistNode>) {
    forall i, j | 0 <= i < j < |s| :: s[i] != s[j]
  }

  lemma ChainNoRepeats(head: HlistHead, nodes: seq<HlistNode>)
    requires Chain(head, nodes)
    ensures NoRepeats(nodes)
  {
  }

  lemma AppendNoRepeats(a: seq<HlistNode>, b: seq<HlistNode>)
    requires NoRepeats(a) && NoRepeats(b) && forall n | n in a :: n !in b
    ensures NoRepeats(a + b)
  {
    assert forall i | 0 <= i < |a| :: (a + b)[i] in a;
    assert forall i | |a| <= i < |a + b| :: (a + b)[i] in b && (a + b)[i] == b[i - |a|];
  }

  /** The key has the width of its type. */
  ghost predicate Keyed(bits: nat, wide: bool, key: nat) {
    1 <= bits <= 32 && if wide then key < 0x1_0000_0000_0000_0000 else key < U32
  }

  ghost predicate Belongs(bits: nat, wide: bool, n: HlistNode, b: nat) {
    Keyed(bits, wide, n.key) && HashMin(n.key, wide, bits) == b
  }

  ghost predicate Shape(bits: nat, wide: bool, size: nat, buckets: seq<seq<HlistNode>>, stored: set<HlistNode>) {
    && 1 <= bits <= 32 && size == |buckets| == Pow2(bits)
    && (forall n | n in stored :: Keyed(bits, wide, n.key) && n in buckets[HashMin(n.key, wide, bits)])
    && (forall b, n | 0 <= b < |buckets| && n in buckets[b] :: n in stored && Belongs(bits, wide, n, b))
  }

  lemma ShapeAdd(bits: nat, wide: bool, size: nat, buckets: seq<seq<HlistNode>>, stored: set<HlistNode>, node: HlistNode)
    requires Shape(bits, wide, size, buckets, stored) && Keyed(bits, wide, node.key)
    ensures var b := HashMin(node.key, wide, bits);
            Shape(bits, wide, size, buckets[b := [node] + buckets[b]], stored + {node})
  {
    hide HashMin, Pow2;
  }

  /** The bucket a node belongs to. */
  ghost function Index(bits: nat, wide: bool, n: HlistNode): nat {
    if Keyed(bits, wide, n.key) then HashMin(n.key, wide, bits) else 0
  }

  lemma BucketMembers(bits: nat, wide: bool, buckets: seq<seq<HlistNode>>, stored: set<HlistNode>, b: nat)
    requires Shape(bits, wide, |buckets|, buckets, stored) && b < |buckets|
    ensures forall n :: n in buckets[b] <==> n in stored && Index(bits, wide, n) == b
  {
    hide HashMin, Pow2, Keyed;
    forall n | n in buckets[b]
      ensures n in stored && Index(bits, wide, n) == b
    {
      assert Belongs(bits, wide, n, b);
    }
  }

  lemma BucketsDisjoint(bits: nat, wide: bool, buckets: seq<seq<HlistNode>>, stored: set<HlistNode>, b: nat)
    requires Shape(bits, wide, |buckets|, buckets, stored) && b < |buckets|
    ensures forall c, n | 0 <= c < |buckets| && c != b && n in buckets[c] :: n in stored && n !in buckets[b]
  {
    hide Index, Shape;
    BucketMembers(bits, wide, buckets, stored, b);
    forall c, n | 0 <= c < |buckets| && c != b && n in buckets[c]
      ensures n in stored && n !in buckets[b]
    {
      BucketMembers(bits, wide, buckets, stored, c);
    }
  }

  lemma ShapeDel(bits: nat, wide: bool, size: nat, buckets: seq<seq<HlistNode>>, stored: set<HlistNode>, b: nat, i: nat)
    requires Shape(bits, wide, size, buckets, stored) && b < |buckets| && i < |buckets[b]| && NoRepeats(buckets[b])
    ensures Shape(bits, wide, size, buckets[b := Without(buckets[b], i)], stored - {buckets[b][i]})
  {
    WithoutMembers(buckets[b], i);
    BucketsDisjoint(bits, wide, buckets, stored, b);
    hide HashMin, Pow2, Without, NoRepeats;
    var node := buckets[b][i];
    assert node in buckets[b];
  }

  /** All buckets but one are chains, made of these heads and nodes. */
  ghost predicate Others(heads: seq<HlistHead>, buckets: seq<seq<HlistNode>>, b: nat, hs: set<HlistHead>,
                         ns: set<HlistNode>)
    reads hs, ns
  {
    |heads| == |buckets| &&
    forall c | 0 <= c < |heads| && c != b ::
      heads[c] in hs && (forall n | n in buckets[c] :: n in ns) && Chain(heads[c], buckets[c])
  }

  lemma EveryIndexInRange(bits: nat, wide: bool, buckets: seq<seq<HlistNode>>, stored: set<HlistNode>)
    requires Shape(bits, wide, |buckets|, buckets, stored)
    ensures forall n | n in stored :: Index(bits, wide, n) < |buckets|
  {
    hide Pow2, HashMin;
  }

  class Table {
    const bits: nat
    const wide: bool
    const heads: seq<HlistHead>
    ghost var buckets: seq<seq<HlistNode>>
    ghost var stored: set<HlistNode>

    /** Every bucket is a well formed chain, and a node is in the one bucket its key hashes to. */
    ghost predicate Valid()
      reads this, heads, stored
    {
      Shape(bits, wide, |heads|, buckets, stored) &&
      (forall b, c | 0 <= b < c < |heads| :: heads[b] != heads[c]) &&
      forall b | 0 <= b < |heads| :: Chain(heads[b], buckets[b])
    }

    /** hash_init() */
    constructor (k: nat, w: bool)
      requires 1 <= k <= 32
      ensures Valid() && bits == k && wide == w && stored == {} && fresh(heads)
    {
      var n := Pow2(k);
      var hs: seq<HlistHead> := [];
      var i := 0;
      while i < n
        invariant 0 <= i <= n && |hs| == i && fresh(hs)
        invariant forall b, c | 0 <= b < c < |hs| :: hs[b] != hs[c]
        invariant forall b | 0 <= b < |hs| :: hs[b].first == null
      {
        var h := new HlistHead();
        hs := hs + [h];
        i := i + 1;
      }
      bits := k;
      wide := w;
      heads := hs;
      buckets := seq(n, _ => []);
      stored := {};
    }

    /** Sets one bucket apart from the others. */
    lemma Apart(b: nat) returns (hs: set<HlistHead>, ns: set<HlistNode>)
      requires Valid() && b < |heads|
      ensures |heads| == |buckets| && Others(heads, buckets, b, hs, ns) && Chain(heads[b], buckets[b])
      ensures NoRepeats(buckets[b])
      ensures heads[b] !in hs && ns <= stored && forall n | n in buckets[b] :: n in stored && n !in ns
    {
      hide Chain, HashMin, Pow2, NoRepeats;
      ChainNoRepeats(heads[b], buckets[b]);
      hs := set h | h in heads && h != heads[b];
      ns := set n | n in stored && n !in buckets[b];
      BucketsDisjoint(bits, wide, buckets, stored, b);
      assert forall c | 0 <= c < |heads| && c != b :: heads[c] in heads && heads[c] != heads[b];
    }

    lemma Size()
      requires Valid()
      ensures |heads| == |buckets| == Pow2(bits)
    {
    }

    /** hash_add() */
    method Add(node: HlistNode)
      requires Valid() && Keyed(bits, wide, node.key) && node !in stored
      modifies this, node, heads, stored
      ensures Valid() && stored == old(stored) + {node}
    {
      hide HashMin, Pow2, Shape, Chain, NoRepeats;
      Size();
      var b := HashMin(node.key, wide, bits);
      ghost var hs, ns := Apart(b);
      ghost var nodes, before := buckets[b], buckets;
      ShapeAdd(bits, wide, |heads|, buckets, stored, node);
      AddHead(node, heads[b], nodes);
      assert Others(heads, before, b, hs, ns);
      buckets := buckets[b := [node] + nodes];
      stored := stored + {node};
    }

    /** hash_del() */
    method Del(node: HlistNode)
      requires Valid() && (node in stored <==> node.pprev != Null)
      modifies this, node, heads, stored
      ensures Valid() && stored == old(stored) - {node}
      ensures node.pprev == Null
    {
      hide HashMin, Pow2, Chain, Shape, Without, NoRepeats;
      if node.pprev != Null {
        ghost var b := Locate(node);
        ghost var hs, ns := Apart(b);
        ghost var nodes, before := buckets[b], buckets;
        ghost var i := DelInit(node, heads[b], nodes);
        assert Others(heads, before, b, hs, ns);
        ShapeDel(bits, wide, |heads|, buckets, stored, b, i);
        buckets := buckets[b := Without(nodes, i)];
        stored := stored - {node};
      }
    }

    lemma Locate(node: HlistNode) returns (b: nat)
      requires Valid() && node in stored
      ensures b < |heads| == |buckets| && node in buckets[b]
    {
      hide Chain, Pow2;
      b := HashMin(node.key, wide, bits);
    }

    /** hash_empty() */
    method Empty() returns (empty: bool)
      requires Valid()
      ensures empty <==> stored == {}
    {
      hide HashMin, Pow2;
      var i := 0;
      while i < |heads|
        invariant 0 <= i <= |heads|
        invariant forall b | 0 <= b < i :: buckets[b] == []
      {
        if heads[i].first != null {
          assert buckets[i][0] in stored;
          return false;
        }
        i := i + 1;
      }
      return true;
    }

    /** hash_for_each(): every stored node, once. */
    method ForEach() returns (visited: seq<HlistNode>)
      requires Valid()
      ensures NoRepeats(visited) && forall n :: n in visited <==> n in stored
    {
      assert |buckets| == |heads|;
      forall b | 0 <= b < |buckets|
        ensures NoRepeats(buckets[b]) && forall n :: n in buckets[b] <==> n in stored && Index(bits, wide, n) == b
      {
        BucketMembers(bits, wide, buckets, stored, b);
      }
      EveryIndexInRange(bits, wide, buckets, stored);
      hide Shape, NoRepeats, Index, Chain;
      visited := [];
      var bkt := 0;
      while bkt < |heads|
        invariant 0 <= bkt <= |heads| && NoRepeats(visited)
        invariant forall n :: n in visited <==> n in stored && Index(bits, wide, n) < bkt
      {
        var chain := Hlist.ForEach(heads[bkt], buckets[bkt]);
        AppendNoRepeats(visited, chain);
        visited := visited + chain;
        bkt := bkt + 1;
      }
    }

    /** hash_for_each_possible(): every node stored under the key is met, and no node twice. */
    method ForEachPossible(key: nat) returns (visited: seq<HlistNode>)
      requires Valid() && Keyed(bits, wide, key)
      ensures NoRepeats(visited) && forall n | n in visited :: n in stored
      ensures forall n | n in stored && n.key == key :: n in visited
    {
      hide Pow2, HashMin, Shape, Chain, NoRepeats;
      Size();
      var b := HashMin(key, wide, bits);
      BucketMembers(bits, wide, buckets, stored, b);
      ChainNoRepeats(heads[b], buckets[b]);
      visited := Hlist.ForEach(heads[b], buckets[b]);
    }
  }

  lemma WithoutMembers(nodes: seq<HlistNode>, i: nat)
    requires i < |nodes| && NoRepeats(nodes)
    ensures forall n :: n in Without(nodes, i) <==> n in nodes && n != nodes[i]
  {
    var rest := Without(nodes, i);
    forall n | n in nodes && n != nodes[i]
      ensures n in rest
    {
      var j :| 0 <= j < |nodes| && nodes[j] == n;
      assert rest[if j < i then j else j - 1] == n;
    }
  }
}
