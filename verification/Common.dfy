/** Small datatypes and sequence facts shared by the models. */
module Common {
  type byte = x: int | 0 <= x < 256

  datatype Option<+T> = None | Some(value: T)

  /** Two sequences hold the same elements, each the same number of times. */
  ghost predicate Permutation<T>(a: seq<T>, b: seq<T>) {
    multiset(a) == multiset(b)
  }

  lemma PermutationLength<T>(a: seq<T>, b: seq<T>)
    requires Permutation(a, b)
    ensures |a| == |b|
  {
    assert |multiset(a)| == |a| && |multiset(b)| == |b|;
  }

  lemma PermutationMember<T>(a: seq<T>, b: seq<T>)
    requires Permutation(a, b)
    ensures forall x :: x in a <==> x in b
  {
    forall x
      ensures x in a <==> x in b
    {
      assert x in a <==> x in multiset(a);
      assert x in b <==> x in multiset(b);
    }
  }

  /** multiset(s) splits off any one position. */
  lemma MultisetSplit<T>(s: seq<T>, i: nat)
    requires i < |s|
    ensures multiset(s) == multiset(s[..i]) + multiset{s[i]} + multiset(s[i + 1..])
  {
    assert s == s[..i] + [s[i]] + s[i + 1..];
  }

  /** The head of one arrangement sits somewhere in the other; the rests match. */
  lemma PermutationHead<T>(a: seq<T>, b: seq<T>) returns (i: nat)
    requires Permutation(a, b) && a != []
    ensures i < |b| && b[i] == a[0]
    ensures Permutation(a[1..], b[..i] + b[i + 1..])
  {
    PermutationMember(a, b);
    assert a[0] in b;
    i :| 0 <= i < |b| && b[i] == a[0];
    MultisetSplit(a, 0);
    MultisetSplit(b, i);
    assert a[..0] == [];
    assert multiset(a[1..]) == multiset(a) - multiset{a[0]};
    assert multiset(b[..i]) + multiset(b[i + 1..]) == multiset(b) - multiset{b[i]};
  }
}
