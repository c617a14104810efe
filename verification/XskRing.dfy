/** The AF_XDP rings of xsk.h: one producer and one consumer over a shared array, with
    free-running 32-bit indices and cached copies of the peer's index. */
module XskRing {
  import opened Words

  /** The memory words of one ring: the shared indices and slots, and both sides' caches.
      pCachedCons is kept `size` ahead of the consumer index it was read from. */
  datatype Ring<T> = Ring(
    size: nat, slots: seq<T>,
    producer: nat, consumer: nat,
    pCachedProd: nat, pCachedCons: nat,
    cCachedProd: nat, cCachedCons: nat)

  // ---------------------------------------------------------------------------
  // What the library functions do to those words

  /** xsk_prod_nb_free(): the count returned and the ring afterwards. */
  function NbFree<T>(r: Ring<T>, nb: nat): (nat, Ring<T>) {
    var free := Wrap(r.pCachedCons - r.pCachedProd);
    if free >= nb then (free, r)
    else
      var cons := Wrap(r.consumer + r.size);
      (Wrap(cons - r.pCachedProd), r.(pCachedCons := cons))
  }

  /** xsk_ring_prod__reserve(): the number granted and the ring afterwards; the first
      granted index is the old pCachedProd. */
  function Reserve<T>(r: Ring<T>, nb: nat): (nat, Ring<T>) {
    var (free, r') := NbFree(r, nb);
    if free < nb then (0, r') else (nb, r'.(pCachedProd := Wrap(r'.pCachedProd + nb)))
  }

  function Submit<T>(r: Ring<T>, nb: nat): Ring<T> {
    r.(producer := Wrap(r.producer + nb))
  }

  /** xsk_cons_nb_avail(). */
  function NbAvail<T>(r: Ring<T>, nb: nat): (nat, Ring<T>) {
    var entries := Wrap(r.cCachedProd - r.cCachedCons);
    var r' := if entries == 0 then r.(cCachedProd := r.producer) else r;
    var entries' := Wrap(r'.cCachedProd - r'.cCachedCons);
    (if entries' > nb then nb else entries', r')
  }

  /** xsk_ring_cons__peek(): the first index is the old cCachedCons. */
  function Peek<T>(r: Ring<T>, nb: nat): (nat, Ring<T>) {
    var (entries, r') := NbAvail(r, nb);
    (entries, if entries > 0 then r'.(cCachedCons := Wrap(r'.cCachedCons + entries)) else r')
  }

  function Cancel<T>(r: Ring<T>, nb: nat): Ring<T> {
    r.(cCachedCons := Wrap(r.cCachedCons - nb))
  }

  function Release<T>(r: Ring<T>, nb: nat): Ring<T> {
    r.(consumer := Wrap(r.consumer + nb))
  }

  /** idx & mask, with mask == size - 1. */
  function SlotOf<T>(r: Ring<T>, idx: nat): nat
    requires r.size >= 1
  {
    BitAnd(idx, r.size - 1)
  }

  // ---------------------------------------------------------------------------
  // Unbounded counters

  /** The run so far in numbers that do not wrap: entries submitted, reserved, released
      and peeked, the consumer and producer counts last seen by the other side, and the
      content of every position reserved so far. */
  datatype Counts<T> = Counts(
    submitted: nat, reserved: nat, released: nat, peeked: nat,
    seenCons: nat, seenProd: nat, entries: seq<T>)

  ghost predicate RingShape<T>(r: Ring<T>) {
    |r.slots| == r.size && exists k: nat :: k <= 31 && r.size == Pow2(k)
  }

  ghost predicate InOrder<T>(r: Ring<T>, n: Counts<T>) {
    && n.seenCons <= n.released <= n.peeked <= n.seenProd <= n.submitted <= n.reserved <= n.seenCons + r.size
    && |n.entries| == n.reserved
  }

  ghost predicate WordsMatch<T>(r: Ring<T>, n: Counts<T>) {
    && r.producer == Wrap(n.submitted) && r.consumer == Wrap(n.released)
    && r.pCachedProd == Wrap(n.reserved) && r.pCachedCons == Wrap(n.seenCons + r.size)
    && r.cCachedProd == Wrap(n.seenProd) && r.cCachedCons == Wrap(n.peeked)
  }

  /** Every reserved position that is not released sits in its slot. */
  ghost predicate SlotsMatch<T>(r: Ring<T>, n: Counts<T>)
    requires RingShape(r) && InOrder(r, n)
  {
    SizePositive(r);
    forall i | n.released <= i < n.reserved :: r.slots[i % r.size] == n.entries[i]
  }

  ghost predicate Coupled<T>(r: Ring<T>, n: Counts<T>) {
    RingShape(r) && InOrder(r, n) && WordsMatch(r, n) && SlotsMatch(r, n)
  }

  lemma SizePositive<T>(r: Ring<T>)
    requires RingShape(r)
    ensures 1 <= r.size < U32 && 2 * r.size <= U32
  {
    var k: nat :| k <= 31 && r.size == Pow2(k);
    Pow2Of32();
    Pow2Divides(k, 31);
    MulBound(Pow2(k), Pow2(31 - k));
  }

  /** Masking a wrapped index finds the slot of the position it stands for. */
  lemma SlotOfPosition<T>(r: Ring<T>, i: nat)
    requires RingShape(r)
    ensures r.size >= 1 && SlotOf(r, Wrap(i)) == i % r.size < |r.slots|
  {
    hide Pow2, BitAnd, Wrap;
    var k: nat :| k <= 31 && r.size == Pow2(k);
    MaskIsModulo(Wrap(i), k);
    WrapKeepsSlot(i, k);
  }

  // ---------------------------------------------------------------------------
  // The same steps on the counters

  ghost function CountsNbFree<T>(r: Ring<T>, n: Counts<T>, nb: nat): Counts<T> {
    if n.seenCons + r.size - n.reserved >= nb then n else n.(seenCons := n.released)
  }

  ghost function CountsReserve<T>(r: Ring<T>, n: Counts<T>, nb: nat): Counts<T>
    requires RingShape(r)
  {
    var n' := CountsNbFree(r, n, nb);
    if n'.seenCons + r.size - n'.reserved < nb then n'
    else
      SizePositive(r);
      n'.(reserved := n.reserved + nb,
          entries := n.entries + seq(nb, j requires 0 <= j < nb => r.slots[(n.reserved + j) % r.size]))
  }

  ghost function CountsNbAvail<T>(n: Counts<T>): Counts<T> {
    if n.seenProd == n.peeked then n.(seenProd := n.submitted) else n
  }

  ghost function Min(a: int, b: int): int {
    if a <= b then a else b
  }

  ghost function CountsPeek<T>(n: Counts<T>, nb: nat): Counts<T>
    requires n.peeked <= n.seenProd <= n.submitted
  {
    var n' := CountsNbAvail(n);
    n'.(peeked := n.peeked + Min(nb, n'.seenProd - n.peeked))
  }

  /** The biased cache: the wrapped subtraction is a true free count, never above the real
      one, and below the request only when the real one is. */
  lemma NbFreeIsTrueCount<T>(r: Ring<T>, n: Counts<T>, nb: nat)
    requires Coupled(r, n) && nb < U32
    ensures var (free, r') := NbFree(r, nb); var n' := CountsNbFree(r, n, nb);
            && Coupled(r', n')
            && free == n'.seenCons + r.size - n.reserved
            && free <= r.size - (n.reserved - n.released)
            && (free < nb ==> free == r.size - (n.reserved - n.released))
  {
    hide RingShape, Wrap;
    SizePositive(r);
    ShapeSame(r, NbFree(r, nb).1);
    WrapDifference(n.seenCons + r.size, n.reserved);
    WrapDifference(n.released + r.size, n.reserved);
    WrapSum(n.released, r.size);
  }

  lemma ShapeSame<T>(r: Ring<T>, r': Ring<T>)
    requires RingShape(r) && r'.size == r.size && r'.slots == r.slots
    ensures RingShape(r')
  {
  }

  lemma ReserveKeeps<T>(r: Ring<T>, n: Counts<T>, nb: nat)
    requires Coupled(r, n) && nb < U32
    ensures var (got, r') := Reserve(r, nb); var n' := CountsReserve(r, n, nb);
            Coupled(r', n') && got == n'.reserved - n.reserved
  {
    hide RingShape, Wrap;
    NbFreeIsTrueCount(r, n, nb);
    SizePositive(r);
    ShapeSame(r, Reserve(r, nb).1);
    WrapSum(n.reserved, nb);
    var n1 := CountsNbFree(r, n, nb);
    var n' := CountsReserve(r, n, nb);
    forall i | n'.released <= i < n'.reserved
      ensures r.slots[i % r.size] == n'.entries[i]
    {
      if i < n.reserved {
        assert n'.entries[i] == n.entries[i];
      } else {
        assert n'.entries[i] == r.slots[(n.reserved + (i - n.reserved)) % r.size];
      }
    }
  }

  lemma SubmitKeeps<T>(r: Ring<T>, n: Counts<T>, nb: nat)
    requires Coupled(r, n) && nb <= n.reserved - n.submitted
    ensures Coupled(Submit(r, nb), n.(submitted := n.submitted + nb))
  {
    WrapSum(n.submitted, nb);
  }

  lemma NbAvailIsTrueCount<T>(r: Ring<T>, n: Counts<T>, nb: nat)
    requires Coupled(r, n)
    ensures var (got, r') := NbAvail(r, nb); var n' := CountsNbAvail(n);
            && Coupled(r', n')
            && got == Min(nb, n'.seenProd - n.peeked)
            && (got == 0 <==> nb == 0 || n.peeked == n.submitted)
  {
    SizePositive(r);
    WrapDifference(n.seenProd, n.peeked);
    WrapDifference(n.submitted, n.peeked);
  }

  lemma PeekKeeps<T>(r: Ring<T>, n: Counts<T>, nb: nat)
    requires Coupled(r, n)
    ensures var (got, r') := Peek(r, nb); var n' := CountsPeek(n, nb);
            && Coupled(r', n')
            && got == n'.peeked - n.peeked
            && (got == 0 <==> nb == 0 || n.peeked == n.submitted)
  {
    NbAvailIsTrueCount(r, n, nb);
    hide NbAvail, CountsNbAvail, RingShape;
    WrapSum(n.peeked, NbAvail(r, nb).0);
  }

  lemma CancelKeeps<T>(r: Ring<T>, n: Counts<T>, nb: nat)
    requires Coupled(r, n) && nb <= n.peeked - n.released
    ensures Coupled(Cancel(r, nb), n.(peeked := n.peeked - nb))
  {
    WrapSum(n.peeked, nb);
  }

  lemma ReleaseKeeps<T>(r: Ring<T>, n: Counts<T>, nb: nat)
    requires Coupled(r, n) && nb <= n.peeked - n.released
    ensures Coupled(Release(r, nb), n.(released := n.released + nb))
  {
    WrapSum(n.released, nb);
  }

  /** Writing a reserved position touches no other position that is still in use. */
  lemma WriteKeeps<T>(r: Ring<T>, n: Counts<T>, i: nat, v: T)
    requires Coupled(r, n) && n.submitted <= i < n.reserved
    ensures r.size >= 1 && SlotOf(r, Wrap(i)) < |r.slots|
    ensures Coupled(r.(slots := r.slots[SlotOf(r, Wrap(i)) := v]), n.(entries := n.entries[i := v]))
  {
    SizePositive(r);
    SlotOfPosition(r, i);
    forall j | n.released <= j < n.reserved && j != i
      ensures j % r.size != i % r.size
    {
      if j < i {
        DistinctSlots(j, i, r.size);
      } else {
        DistinctSlots(i, j, r.size);
      }
    }
  }

  // ---------------------------------------------------------------------------
  // Every interleaving of the two sides

  /** What callers may do. A producer writes and submits only what it reserved; a consumer
      cancels and releases only what it peeked. Positions are counted without wrapping. */
  datatype Action<T> =
    | DoReserve(nb: nat)
    | DoWrite(i: nat, v: T)
    | DoSubmit(nb: nat)
    | DoPeek(nb: nat)
    | DoCancel(nb: nat)
    | DoRelease(nb: nat)

  /** The ring, its counters, and what the two callers saw: values submitted, and values
      read out of the slots when they were released. */
  datatype Machine<T> = Machine(ring: Ring<T>, n: Counts<T>, sent: seq<T>, delivered: seq<T>)

  ghost function InitRing<T>(slots: seq<T>): Ring<T> {
    Ring(|slots|, slots, 0, 0, 0, |slots|, 0, 0)
  }

  ghost function InitMachine<T>(slots: seq<T>): Machine<T> {
    Machine(InitRing(slots), Counts(0, 0, 0, 0, 0, 0, []), [], [])
  }

  /** The slots behind nb consecutive wrapped indices. */
  ghost function ReadSlots<T>(r: Ring<T>, first: nat, nb: nat): seq<T>
    requires RingShape(r)
  {
    seq(nb, j requires 0 <= j < nb => SlotOfPosition(r, first + j); r.slots[SlotOf(r, Wrap(first + j))])
  }

  ghost predicate Enabled<T>(m: Machine<T>, a: Action<T>) {
    match a
    case DoReserve(nb) => nb < U32
    case DoWrite(i, _) => m.n.submitted <= i < m.n.reserved
    case DoSubmit(nb) => nb <= m.n.reserved - m.n.submitted
    case DoPeek(nb) => nb < U32
    case DoCancel(nb) => nb <= m.n.peeked - m.n.released
    case DoRelease(nb) => nb <= m.n.peeked - m.n.released
  }

  ghost function Next<T>(m: Machine<T>, a: Action<T>): Machine<T>
    requires Coupled(m.ring, m.n) && Enabled(m, a)
  {
    match a
    case DoReserve(nb) => m.(ring := Reserve(m.ring, nb).1, n := CountsReserve(m.ring, m.n, nb))
    case DoWrite(i, v) =>
      WriteKeeps(m.ring, m.n, i, v);
      m.(ring := m.ring.(slots := m.ring.slots[SlotOf(m.ring, Wrap(i)) := v]),
         n := m.n.(entries := m.n.entries[i := v]))
    case DoSubmit(nb) =>
      m.(ring := Submit(m.ring, nb), n := m.n.(submitted := m.n.submitted + nb),
         sent := m.sent + ReadSlots(m.ring, m.ring.producer, nb))
    case DoPeek(nb) => m.(ring := Peek(m.ring, nb).1, n := CountsPeek(m.n, nb))
    case DoCancel(nb) => m.(ring := Cancel(m.ring, nb), n := m.n.(peeked := m.n.peeked - nb))
    case DoRelease(nb) =>
      m.(ring := Release(m.ring, nb), n := m.n.(released := m.n.released + nb),
         delivered := m.delivered + ReadSlots(m.ring, m.ring.consumer, nb))
  }

  ghost predicate MachineOK<T>(m: Machine<T>) {
    && Coupled(m.ring, m.n)
    && m.sent == m.n.entries[..m.n.submitted]
    && m.delivered == m.n.entries[..m.n.released]
  }

  lemma InSlot<T>(r: Ring<T>, n: Counts<T>, i: nat)
    requires Coupled(r, n) && n.released <= i < n.reserved
    ensures r.size >= 1 && i < |n.entries| && i % r.size < |r.slots| && r.slots[i % r.size] == n.entries[i]
  {
    SizePositive(r);
  }

  lemma EntriesReserved<T>(r: Ring<T>, n: Counts<T>)
    requires Coupled(r, n)
    ensures |n.entries| == n.reserved && RingShape(r)
  {
  }

  lemma ReadSlotsAt<T>(r: Ring<T>, n: Counts<T>, word: nat, first: nat, nb: nat)
    requires Coupled(r, n) && word == Wrap(first) && n.released <= first && first + nb <= n.reserved
    ensures ReadSlots(r, word, nb) == n.entries[first..first + nb]
  {
    hide SlotOf, Wrap, Coupled;
    EntriesReserved(r, n);
    forall j | 0 <= j < nb
      ensures ReadSlots(r, word, nb)[j] == n.entries[first + j]
    {
      WrapSum(first, j);
      SlotOfPosition(r, first + j);
      InSlot(r, n, first + j);
    }
  }

  lemma NextCoupled<T>(m: Machine<T>, a: Action<T>)
    requires Coupled(m.ring, m.n) && Enabled(m, a)
    ensures Coupled(Next(m, a).ring, Next(m, a).n)
  {
    hide Coupled, Reserve, Peek, CountsReserve, CountsPeek, ReadSlots;
    match a {
      case DoReserve(nb) => ReserveKeeps(m.ring, m.n, nb);
      case DoWrite(i, v) => WriteKeeps(m.ring, m.n, i, v);
      case DoSubmit(nb) => SubmitKeeps(m.ring, m.n, nb);
      case DoPeek(nb) => PeekKeeps(m.ring, m.n, nb);
      case DoCancel(nb) => CancelKeeps(m.ring, m.n, nb);
      case DoRelease(nb) => ReleaseKeeps(m.ring, m.n, nb);
    }
  }

  ghost predicate LogsOK<T>(m: Machine<T>) {
    && m.n.released <= m.n.submitted <= |m.n.entries|
    && m.sent == m.n.entries[..m.n.submitted]
    && m.delivered == m.n.entries[..m.n.released]
  }

  lemma SubmitLogs<T>(m: Machine<T>, nb: nat)
    requires MachineOK(m) && Enabled(m, DoSubmit(nb))
    ensures LogsOK(Next(m, DoSubmit(nb)))
  {
    hide Coupled, RingShape, ReadSlots;
    CoupledInOrder(m.ring, m.n);
    ReadSlotsAt(m.ring, m.n, m.ring.producer, m.n.submitted, nb);
    Chunk(m.n.entries, m.n.submitted, nb);
  }

  lemma ReleaseLogs<T>(m: Machine<T>, nb: nat)
    requires MachineOK(m) && Enabled(m, DoRelease(nb))
    ensures LogsOK(Next(m, DoRelease(nb)))
  {
    hide Coupled, RingShape, ReadSlots;
    CoupledInOrder(m.ring, m.n);
    ReadSlotsAt(m.ring, m.n, m.ring.consumer, m.n.released, nb);
    Chunk(m.n.entries, m.n.released, nb);
  }

  lemma Chunk<T>(s: seq<T>, i: nat, nb: nat)
    requires i + nb <= |s|
    ensures s[..i] + s[i..i + nb] == s[..i + nb]
  {
  }

  lemma NextLogs<T>(m: Machine<T>, a: Action<T>)
    requires MachineOK(m) && Enabled(m, a)
    ensures LogsOK(Next(m, a))
  {
    hide Coupled, RingShape, Reserve, Peek, ReadSlots;
    match a {
      case DoSubmit(nb) => SubmitLogs(m, nb);
      case DoRelease(nb) => ReleaseLogs(m, nb);
      case _ => CoupledInOrder(m.ring, m.n);
    }
  }

  lemma NextOK<T>(m: Machine<T>, a: Action<T>)
    requires MachineOK(m) && Enabled(m, a)
    ensures MachineOK(Next(m, a))
  {
    NextCoupled(m, a);
    NextLogs(m, a);
  }

  lemma CoupledInOrder<T>(r: Ring<T>, n: Counts<T>)
    requires Coupled(r, n)
    ensures InOrder(r, n) && WordsMatch(r, n) && RingShape(r)
  {
  }

  /** m is reached from a fresh ring by some interleaving of the two sides. */
  ghost predicate Reached<T(!new)>(slots: seq<T>, acts: seq<Action<T>>, m: Machine<T>)
    requires RingShape(InitRing(slots))
    decreases |acts|
  {
    if acts == [] then m == InitMachine(slots)
    else exists m0 ::
      && Reached(slots, acts[..|acts| - 1], m0)
      && Coupled(m0.ring, m0.n) && Enabled(m0, acts[|acts| - 1]) && m == Next(m0, acts[|acts| - 1])
  }

  lemma {:induction false} ReachedOK<T(!new)>(slots: seq<T>, acts: seq<Action<T>>, m: Machine<T>)
    requires RingShape(InitRing(slots)) && Reached(slots, acts, m)
    ensures MachineOK(m) && m.ring.size == |slots|
    decreases |acts|
  {
    if acts == [] {
      SizePositive(m.ring);
    } else {
      var m0 :|
        && Reached(slots, acts[..|acts| - 1], m0)
        && Coupled(m0.ring, m0.n) && Enabled(m0, acts[|acts| - 1]) && m == Next(m0, acts[|acts| - 1]);
      ReachedOK(slots, acts[..|acts| - 1], m0);
      NextOK(m0, acts[|acts| - 1]);
    }
  }

  /** First in, first out: what was delivered is a prefix of what was sent, across any
      number of wraps, and never more than a ring of entries is in flight. */
  lemma FirstInFirstOut<T(!new)>(slots: seq<T>, acts: seq<Action<T>>, m: Machine<T>)
    requires RingShape(InitRing(slots)) && Reached(slots, acts, m)
    ensures m.delivered <= m.sent
    ensures |m.sent| - |m.delivered| <= |slots|
  {
    ReachedOK(slots, acts, m);
  }

  /** Until it is released, a peeked index reads the entry sent at that position. */
  lemma PeekedEntryIsSentEntry<T(!new)>(slots: seq<T>, acts: seq<Action<T>>, m: Machine<T>, i: nat)
    requires RingShape(InitRing(slots)) && Reached(slots, acts, m)
    requires m.n.released <= i < m.n.peeked
    ensures m.ring.size >= 1 && SlotOf(m.ring, Wrap(i)) < |m.ring.slots| && i < |m.sent|
    ensures m.ring.slots[SlotOf(m.ring, Wrap(i))] == m.sent[i]
  {
    ReachedOK(slots, acts, m);
    SlotOfPosition(m.ring, i);
  }

  predicate ByProducer<T>(a: Action<T>) {
    a.DoReserve? || a.DoWrite? || a.DoSubmit?
  }

  /** m' is reached from m by these actions. */
  ghost predicate Follows<T(!new)>(m: Machine<T>, acts: seq<Action<T>>, m': Machine<T>)
    decreases |acts|
  {
    if acts == [] then m' == m
    else exists m0 ::
      && Follows(m, acts[..|acts| - 1], m0)
      && Coupled(m0.ring, m0.n) && Enabled(m0, acts[|acts| - 1]) && m' == Next(m0, acts[|acts| - 1])
  }

  /** What the producer leaves alone: the consumer's words, and what was sent. */
  ghost predicate ConsumerKeeps<T>(m: Machine<T>, m': Machine<T>) {
    && MachineOK(m')
    && m'.ring.size == m.ring.size && m'.ring.cCachedCons == m.ring.cCachedCons
    && m'.n.peeked == m.n.peeked && m'.n.released == m.n.released && m'.n.seenProd == m.n.seenProd
    && m.sent <= m'.sent
  }

  lemma ProducerStep<T>(m: Machine<T>, a: Action<T>)
    requires MachineOK(m) && ByProducer(a) && Enabled(m, a)
    ensures ConsumerKeeps(m, Next(m, a))
  {
    NextOK(m, a);
    hide Coupled, MachineOK, RingShape, ReadSlots;
  }

  lemma {:induction false} ProducerRun<T(!new)>(m: Machine<T>, acts: seq<Action<T>>, m': Machine<T>)
    requires MachineOK(m) && (forall a | a in acts :: ByProducer(a)) && Follows(m, acts, m')
    ensures ConsumerKeeps(m, m')
    decreases |acts|
  {
    hide Coupled, Enabled, Next, ByProducer;
    if acts != [] {
      var init, a := acts[..|acts| - 1], acts[|acts| - 1];
      var m0 :| Follows(m, init, m0) && Coupled(m0.ring, m0.n) && Enabled(m0, a) && m' == Next(m0, a);
      assert a in acts;
      ProducerRun(m, init, m0);
      ProducerStep(m0, a);
    }
  }

  /** The entry behind the index of position i. */
  ghost function EntryAt<T>(r: Ring<T>, i: nat): T
    requires RingShape(r)
  {
    SlotOfPosition(r, i);
    r.slots[SlotOf(r, Wrap(i))]
  }

  /** got indices from the position first on stand for sent entries. */
  ghost predicate HandsOut<T>(m: Machine<T>, r: Ring<T>, first: nat, got: nat) {
    RingShape(r) && forall i | first <= i < first + got :: i < |m.sent| && EntryAt(r, i) == m.sent[i]
  }

  lemma EntryIsSent<T>(m: Machine<T>, i: nat)
    requires MachineOK(m) && m.n.released <= i < m.n.submitted
    ensures i < |m.sent| && EntryAt(m.ring, i) == m.sent[i]
  {
    SlotOfPosition(m.ring, i);
  }

  /** Cancelled entries come back unchanged: in every run, whatever the producer does after the
      cancel, the next peek starts at the first cancelled index, returns as many of the cancelled
      entries as it is asked for, and finds behind each index what was there before the cancel. */
  lemma CancelledEntriesReturn<T(!new)>(
    slots: seq<T>, acts: seq<Action<T>>, m: Machine<T>, nb: nat, more: seq<Action<T>>, m': Machine<T>, again: nat)
    requires RingShape(InitRing(slots)) && Reached(slots, acts, m) && Coupled(m.ring, m.n)
    requires nb <= m.n.peeked - m.n.released && again < U32
    requires (forall a | a in more :: ByProducer(a)) && Follows(Next(m, DoCancel(nb)), more, m')
    ensures m'.ring.cCachedCons == Wrap(m.n.peeked - nb)
    ensures Min(nb, again) <= Peek(m'.ring, again).0 <= again
    ensures RingShape(m.ring) && RingShape(m'.ring) && RingShape(Peek(m'.ring, again).1)
    ensures forall i | m.n.peeked - nb <= i < m.n.peeked :: EntryAt(m'.ring, i) == EntryAt(m.ring, i)
    ensures var (got, r) := Peek(m'.ring, again);
            && r.slots == m'.ring.slots && r.size == m'.ring.size
            && HandsOut(m', r, m.n.peeked - nb, got)
  {
    hide Follows, Reached, EntryAt, HandsOut, MachineOK, Coupled, Next, Peek, RingShape, Wrap;
    AfterCancel(slots, acts, m, nb, more, m');
    PeekReturns(m', again);
    StillThere(m, m', m.n.peeked - nb);
  }

  lemma AfterCancel<T(!new)>(
    slots: seq<T>, acts: seq<Action<T>>, m: Machine<T>, nb: nat, more: seq<Action<T>>, m': Machine<T>)
    requires RingShape(InitRing(slots)) && Reached(slots, acts, m) && Coupled(m.ring, m.n)
    requires nb <= m.n.peeked - m.n.released
    requires (forall a | a in more :: ByProducer(a)) && Follows(Next(m, DoCancel(nb)), more, m')
    ensures MachineOK(m) && MachineOK(m') && m.sent <= m'.sent
    ensures m'.n.peeked == m.n.peeked - nb && m'.n.released == m.n.released && m.n.peeked <= m'.n.seenProd
  {
    hide Follows, Reached, MachineOK, Coupled, Next;
    ReachedOK(slots, acts, m);
    NextOK(m, DoCancel(nb));
    CancelEffect(m, nb);
    ProducerRun(Next(m, DoCancel(nb)), more, m');
    Orders(m);
  }

  /** Sent entries keep their slots until they are released. */
  lemma StillThere<T>(m: Machine<T>, m': Machine<T>, first: nat)
    requires MachineOK(m) && MachineOK(m') && m.sent <= m'.sent
    requires m.n.released <= first && m'.n.released <= first
    ensures RingShape(m.ring) && RingShape(m'.ring)
    ensures forall i | first <= i < m.n.peeked :: EntryAt(m'.ring, i) == EntryAt(m.ring, i)
  {
    hide EntryAt, MachineOK, Coupled;
    Orders(m);
    Orders(m');
    forall i | first <= i < m.n.peeked
      ensures EntryAt(m'.ring, i) == EntryAt(m.ring, i)
    {
      EntryIsSent(m, i);
      EntryIsSent(m', i);
    }
  }

  lemma CancelEffect<T>(m: Machine<T>, nb: nat)
    requires MachineOK(m) && nb <= m.n.peeked - m.n.released
    ensures var m1 := Next(m, DoCancel(nb));
            && m1.n.peeked == m.n.peeked - nb && m1.n.released == m.n.released && m1.n.seenProd == m.n.seenProd
            && m1.sent == m.sent
  {
  }

  /** A peek hands out sent entries, beginning with the first that was not peeked. */
  lemma PeekReturns<T>(m: Machine<T>, nb: nat)
    requires MachineOK(m)
    ensures var got := Peek(m.ring, nb).0; var r := Peek(m.ring, nb).1;
            && m.ring.cCachedCons == Wrap(m.n.peeked)
            && Min(m.n.seenProd - m.n.peeked, nb) <= got <= nb
            && RingShape(m.ring) && RingShape(r) && r.size == m.ring.size && r.slots == m.ring.slots
            && HandsOut(m, r, m.n.peeked, got)
  {
    hide EntryAt, MachineOK, Coupled, Peek, RingShape;
    Orders(m);
    PeekKeeps(m.ring, m.n, nb);
    PeekLeavesSlots(m.ring, nb);
    var got, r := Peek(m.ring, nb).0, Peek(m.ring, nb).1;
    CoupledInOrder(r, CountsPeek(m.n, nb));
    forall i | m.n.peeked <= i < m.n.peeked + got
      ensures i < |m.sent| && EntryAt(r, i) == m.sent[i]
    {
      EntryIsSent(m, i);
      SameEntry(m.ring, r, i);
    }
  }

  lemma Orders<T>(m: Machine<T>)
    requires MachineOK(m)
    ensures Coupled(m.ring, m.n) && RingShape(m.ring) && InOrder(m.ring, m.n) && WordsMatch(m.ring, m.n)
    ensures |m.sent| == m.n.submitted
  {
  }

  lemma PeekLeavesSlots<T>(r: Ring<T>, nb: nat)
    requires RingShape(r)
    ensures var r' := Peek(r, nb).1; RingShape(r') && r'.size == r.size && r'.slots == r.slots
  {
    ShapeSame(r, Peek(r, nb).1);
  }

  lemma SameEntry<T>(r: Ring<T>, r': Ring<T>, i: nat)
    requires RingShape(r) && RingShape(r') && r'.size == r.size && r'.slots == r.slots
    ensures EntryAt(r', i) == EntryAt(r, i)
  {
  }

  /** A granted reservation gets distinct slots, and none of them holds an entry that is
      not yet released; a refusal means there really was not enough room. */
  lemma GrantedSlotsAreFree<T>(m: Machine<T>, nb: nat)
    requires MachineOK(m) && nb < U32
    ensures var got := Reserve(m.ring, nb).0; var first := m.n.reserved; var size := m.ring.size;
            && size >= 1
            && (got == nb || (got == 0 && size - (m.n.reserved - m.n.released) < nb))
            && (got > 0 ==> m.ring.pCachedProd == Wrap(first) && got <= size - (m.n.reserved - m.n.released))
            && (forall i, k: nat | m.n.released <= i < k < first + got && first <= k ::
                  SlotOf(m.ring, Wrap(i)) != SlotOf(m.ring, Wrap(k)))
  {
    NbFreeIsTrueCount(m.ring, m.n, nb);
    SizePositive(m.ring);
    var got := Reserve(m.ring, nb).0;
    var first := m.n.reserved;
    var size := m.ring.size;
    assert got <= size - (m.n.reserved - m.n.released);
    forall i, k: nat | m.n.released <= i < k < first + got && first <= k
      ensures SlotOf(m.ring, Wrap(i)) != SlotOf(m.ring, Wrap(k))
    {
      DistinctSlots(i, k, size);
      SlotOfPosition(m.ring, i);
      SlotOfPosition(m.ring, k);
    }
  }
}
