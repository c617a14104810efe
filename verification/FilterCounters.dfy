/** Rule words: four flag bits at the bottom, a hit counter from bit 6 up, one copy per CPU. */
module FilterCounters {
  import opened FilterVerdict

  const WORD: nat := 0x1_0000_0000_0000_0000
  const COUNTER_LIMIT: nat := 0x400_0000_0000_0000

  function Flags(word: nat): nat {
    word % 16
  }

  function Count(word: nat): nat {
    word / 64
  }

  /** A hit: *value += 1 << COUNTER_SHIFT in 64 bits. */
  function Bumped(word: nat): nat {
    (word + 64) % WORD
  }

  /** A flag edit: (value & ~MAP_FLAGS) | (flags & MAP_FLAGS). */
  function Reflagged(word: nat, flags: nat): nat {
    word - word % 16 + flags % 16
  }

  lemma BumpedKeepsFlags(word: nat)
    requires word < WORD
    ensures Bumped(word) < WORD && Flags(Bumped(word)) == Flags(word)
    ensures Count(word) + 1 < COUNTER_LIMIT ==> Count(Bumped(word)) == Count(word) + 1
    ensures Count(word) + 1 == COUNTER_LIMIT ==> Count(Bumped(word)) == 0
    ensures Count(word) < COUNTER_LIMIT
  {
    var q, r := word / 64, word % 64;
    assert word == 64 * q + r;
    if q + 1 < COUNTER_LIMIT {
      assert Bumped(word) == 64 * (q + 1) + r;
    } else {
      assert Bumped(word) == r;
    }
  }

  lemma ReflaggedKeepsCount(word: nat, flags: nat)
    requires word < WORD
    ensures Reflagged(word, flags) < WORD
    ensures Flags(Reflagged(word, flags)) == flags % 16 && Count(Reflagged(word, flags)) == Count(word)
  {
    var q, r := word / 16, flags % 16;
    assert word == 16 * q + word % 16 && Reflagged(word, flags) == 16 * q + r;
    assert word / 64 == q / 4 && (16 * q + r) / 64 == q / 4;
  }

  // ---------------------------------------------------------------------------
  // Sums

  function Sum(s: seq<nat>): nat {
    if s == [] then 0 else s[0] + Sum(s[1..])
  }

  lemma {:induction false} SumUpdate(s: seq<nat>, i: nat, v: nat)
    requires i < |s|
    ensures Sum(s[i := v]) == Sum(s) - s[i] + v
  {
    if i == 0 {
      assert s[i := v][1..] == s[1..];
    } else {
      assert s[i := v][1..] == s[1..][i - 1 := v];
      SumUpdate(s[1..], i - 1, v);
    }
  }

  lemma {:induction false} SumAppend(s: seq<nat>, v: nat)
    ensures Sum(s + [v]) == Sum(s) + v
  {
    if s == [] {
      assert s + [v] == [v];
    } else {
      assert (s + [v])[1..] == s[1..] + [v];
      SumAppend(s[1..], v);
    }
  }

  /** The hit counts of one rule, CPU by CPU. */
  function Counts(words: seq<nat>): (c: seq<nat>)
    ensures |c| == |words|
  {
    seq(|words|, i requires 0 <= i < |words| => Count(words[i]))
  }

  /** Hits counted by these rules. */
  ghost function HitsOf(keys: set<Key>, words: map<Key, seq<nat>>): nat
    requires keys <= words.Keys
  {
    if keys == {} then 0
    else
      var k :| k in keys;
      Sum(Counts(words[k])) + HitsOf(keys - {k}, words)
  }

  ghost function Hits(words: map<Key, seq<nat>>): nat {
    HitsOf(words.Keys, words)
  }

  lemma {:induction false} HitsOfOne(keys: set<Key>, words: map<Key, seq<nat>>, k: Key)
    requires keys <= words.Keys && k in keys
    ensures HitsOf(keys, words) == Sum(Counts(words[k])) + HitsOf(keys - {k}, words)
    decreases keys
  {
    var l :| l in keys && HitsOf(keys, words) == Sum(Counts(words[l])) + HitsOf(keys - {l}, words);
    if l != k {
      HitsOfOne(keys - {l}, words, k);
      HitsOfOne(keys - {k}, words, l);
      assert keys - {l} - {k} == keys - {k} - {l};
    }
  }

  lemma {:induction false} HitsOfSame(keys: set<Key>, a: map<Key, seq<nat>>, b: map<Key, seq<nat>>)
    requires keys <= a.Keys && keys <= b.Keys && forall k | k in keys :: a[k] == b[k]
    ensures HitsOf(keys, a) == HitsOf(keys, b)
    decreases keys
  {
    if keys != {} {
      var k :| k in keys;
      HitsOfOne(keys, a, k);
      HitsOfOne(keys, b, k);
      HitsOfSame(keys - {k}, a, b);
    }
  }

  /** Replacing one rule's words changes the total by the change in that rule. */
  lemma HitsUpdate(words: map<Key, seq<nat>>, k: Key, ws: seq<nat>)
    ensures Hits(words[k := ws]) == Hits(words) + Sum(Counts(ws)) - if k in words then Sum(Counts(words[k])) else 0
  {
    var after := words[k := ws];
    var rest := words.Keys - {k};
    assert after.Keys - {k} == rest;
    HitsOfOne(after.Keys, after, k);
    HitsOfSame(rest, words, after);
    if k in words {
      HitsOfOne(words.Keys, words, k);
    } else {
      assert rest == words.Keys;
    }
  }

  lemma SumOfZeros(s: seq<nat>)
    requires forall i | 0 <= i < |s| :: s[i] == 0
    ensures Sum(s) == 0
  {
  }

  /** The maps after a hit of rule k on a CPU. */
  function Bump(words: map<Key, seq<nat>>, k: Key, cpu: nat): map<Key, seq<nat>>
    requires k in words && cpu < |words[k]|
  {
    var ws: seq<nat> := words[k][cpu := Bumped(words[k][cpu])];
    words[k := ws]
  }

  /** A hit adds one to the counts of its rule, up to a wrap. */
  lemma RuleCounts(ws: seq<nat>, cpu: nat)
    requires cpu < |ws| && ws[cpu] < WORD
    ensures Sum(Counts(ws[cpu := Bumped(ws[cpu])])) + (if Count(ws[cpu]) + 1 >= COUNTER_LIMIT then COUNTER_LIMIT else 0) ==
            Sum(Counts(ws)) + 1
  {
    var v := Bumped(ws[cpu]);
    BumpedKeepsFlags(ws[cpu]);
    assert Counts(ws[cpu := v]) == Counts(ws)[cpu := Count(v)];
    SumUpdate(Counts(ws), cpu, Count(v));
  }

  /** And so to the total. */
  lemma HitCounts(words: map<Key, seq<nat>>, k: Key, cpu: nat)
    requires k in words && cpu < |words[k]| && words[k][cpu] < WORD
    ensures Hits(Bump(words, k, cpu)) + (if Count(words[k][cpu]) + 1 >= COUNTER_LIMIT then COUNTER_LIMIT else 0) ==
            Hits(words) + 1
  {
    RuleCounts(words[k], cpu);
    HitsUpdate(words, k, words[k][cpu := Bumped(words[k][cpu])]);
  }

  /** The words a flag edit writes: the old ones, or zeros for a new rule, reflagged. */
  function Edited(words: seq<nat>, flags: nat): (ws: seq<nat>)
    ensures |ws| == |words|
  {
    seq(|words|, i requires 0 <= i < |words| => Reflagged(words[i], flags))
  }

  /** A flag edit changes no count. */
  lemma EditKeepsCounts(words: seq<nat>, flags: nat)
    requires forall w | w in words :: w < WORD
    ensures Counts(Edited(words, flags)) == Counts(words)
    ensures forall w | w in Edited(words, flags) :: w < WORD && Flags(w) == flags % 16
  {
    forall i | 0 <= i < |words|
      ensures Count(Edited(words, flags)[i]) == Count(words[i])
      ensures Edited(words, flags)[i] < WORD && Flags(Edited(words, flags)[i]) == flags % 16
    {
      assert words[i] in words;
      ReflaggedKeepsCount(words[i], flags);
    }
  }
}
