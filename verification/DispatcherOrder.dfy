/** The run order of component programs: cmp_xdp_programs() and the qsort() call
    that uses it. */
module DispatcherOrder {
  import opened Common

  /** C byte strings without their terminating zero. */
  type Bytes = seq<nat>

  /** What the kernel knows about a loaded program. An unloaded program of a request
      already names the values it will have once loaded. */
  datatype KernelProg = KernelProg(id: nat, name: Bytes, tag: Bytes, loadTime: nat, insnCnt: nat)

  /** A chain_call_actions word, given by the numbers of its set bits. */
  type Bitmap = set<nat>

  /** A program together with the metadata kept in the dispatcher configuration. */
  datatype Component = Component(prog: KernelProg, runPrio: nat, chainCalls: Bitmap)

  /** A struct xdp_program as the sort sees it: prog_fd >= 0 is `loaded`,
      a non-NULL bpf_prog is `hasObject`. */
  datatype Entry = Entry(comp: Component, loaded: bool, hasObject: bool)

  const ZeroTag: Bytes := [0, 0, 0, 0, 0, 0, 0, 0]

  /** prog_tag and load_time stay zero until the program is loaded. */
  function TagOf(e: Entry): Bytes {
    if e.loaded then e.comp.prog.tag else ZeroTag
  }

  function LoadTimeOf(e: Entry): nat {
    if e.loaded then e.comp.prog.loadTime else 0
  }

  /** The sign of strcmp() (and of memcmp() on equally long operands). */
  function LexCompare(a: Bytes, b: Bytes): int
  {
    if a == [] then (if b == [] then 0 else -1)
    else if b == [] then 1
    else if a[0] != b[0] then (if a[0] < b[0] then -1 else 1)
    else LexCompare(a[1..], b[1..])
  }

  function IntCompare(a: int, b: int): int {
    if a < b then -1 else if a > b then 1 else 0
  }

  /** The last two tie-breakers: tag, then load time. */
  function KeyCompare(a: Entry, b: Entry): int {
    var cmp := LexCompare(TagOf(a), TagOf(b));
    if cmp != 0 then cmp else IntCompare(LoadTimeOf(a), LoadTimeOf(b))
  }

  function Compare(a: Entry, b: Entry): int {
    if a.comp.runPrio != b.comp.runPrio then
      (if a.comp.runPrio < b.comp.runPrio then -1 else 1)
    else
      var cmp := LexCompare(a.comp.prog.name, b.comp.prog.name);
      if cmp != 0 then cmp
      else if a.loaded && !b.loaded then -1
      else if !a.loaded && b.loaded then 1
      else if a.hasObject && b.hasObject && a.comp.prog.insnCnt != b.comp.prog.insnCnt then
        (if a.comp.prog.insnCnt < b.comp.prog.insnCnt then -1 else 1)
      else KeyCompare(a, b)
  }

  lemma {:induction false} LexCompareOrder(a: Bytes, b: Bytes)
    ensures LexCompare(a, b) == -LexCompare(b, a)
    ensures LexCompare(a, b) == 0 <==> a == b
    ensures -1 <= LexCompare(a, b) <= 1
  {
    if a != [] && b != [] {
      LexCompareOrder(a[1..], b[1..]);
      assert a == [a[0]] + a[1..] && b == [b[0]] + b[1..];
    }
  }

  lemma {:induction false} LexCompareTransitive(a: Bytes, b: Bytes, c: Bytes)
    requires LexCompare(a, b) <= 0 && LexCompare(b, c) <= 0
    ensures LexCompare(a, c) <= 0
    ensures LexCompare(a, c) == 0 ==> LexCompare(a, b) == 0 && LexCompare(b, c) == 0
  {
    LexCompareOrder(a, b);
    LexCompareOrder(b, c);
    LexCompareOrder(a, c);
    if a != [] && b != [] && c != [] && a[0] == b[0] == c[0] {
      LexCompareTransitive(a[1..], b[1..], c[1..]);
    }
  }

  /** Dictionary order: a is a proper beginning of b, or smaller at the first place where they differ. */
  ghost predicate Earlier(a: Bytes, b: Bytes) {
    || (|a| < |b| && a == b[..|a|])
    || (exists i :: 0 <= i < |a| && i < |b| && a[..i] == b[..i] && a[i] < b[i])
  }

  /** The sign of strcmp() is that order. */
  lemma {:induction false} LexCompareIsDictionary(a: Bytes, b: Bytes)
    ensures LexCompare(a, b) < 0 <==> Earlier(a, b)
  {
    if a != [] && b != [] && a[0] == b[0] {
      LexCompareIsDictionary(a[1..], b[1..]);
      SameHead(a, b);
    } else if a != [] && b != [] {
      assert a[0] < b[0] ==> a[..0] == b[..0];
      assert forall i | 0 < i <= |a| && i <= |b| :: a[..i][0] == a[0] && b[..i][0] == b[0];
    }
  }

  lemma SameHead(a: Bytes, b: Bytes)
    requires a != [] && b != [] && a[0] == b[0]
    ensures Earlier(a, b) <==> Earlier(a[1..], b[1..])
  {
    var x, y := a[1..], b[1..];
    assert a == [a[0]] + x && b == [b[0]] + y;
    forall i | 0 <= i <= |x| && i <= |y|
      ensures x[..i] == y[..i] <==> a[..i + 1] == b[..i + 1]
    {
      assert a[..i + 1] == [a[0]] + x[..i] && b[..i + 1] == [b[0]] + y[..i];
      assert x[..i] == a[..i + 1][1..] && y[..i] == b[..i + 1][1..];
    }
    if Earlier(x, y) && !(|x| < |y| && x == y[..|x|]) {
      var i :| 0 <= i < |x| && i < |y| && x[..i] == y[..i] && x[i] < y[i];
      assert a[..i + 1] == b[..i + 1] && a[i + 1] < b[i + 1];
    }
    if Earlier(a, b) && !(|a| < |b| && a == b[..|a|]) {
      var i :| 0 <= i < |a| && i < |b| && a[..i] == b[..i] && a[i] < b[i];
      assert x[..i - 1] == y[..i - 1] && x[i - 1] < y[i - 1];
    }
    assert x[..|x|] == x && a[..|a|] == a;
  }

  /** Two programs whose sizes are known and differ. */
  predicate BySize(a: Entry, b: Entry) {
    a.hasObject && b.hasObject && a.comp.prog.insnCnt != b.comp.prog.insnCnt
  }

  /** a comes before b: by priority, by name, loaded before not loaded, the smaller program, by tag and by
      load time, each where nothing before it decides. */
  ghost predicate Precedes(a: Entry, b: Entry) {
    var p, q := a.comp.prog, b.comp.prog;
    var tied := a.comp.runPrio == b.comp.runPrio && p.name == q.name;
    || a.comp.runPrio < b.comp.runPrio
    || (a.comp.runPrio == b.comp.runPrio && Earlier(p.name, q.name))
    || (tied && a.loaded && !b.loaded)
    || (tied && a.loaded == b.loaded && BySize(a, b) && p.insnCnt < q.insnCnt)
    || (tied && a.loaded && b.loaded && !BySize(a, b) && (Earlier(p.tag, q.tag) || (p.tag == q.tag && p.loadTime < q.loadTime)))
  }

  /** The sign of the comparison is that order. */
  lemma CompareMeans(a: Entry, b: Entry)
    ensures Compare(a, b) < 0 <==> Precedes(a, b)
    ensures Compare(a, b) > 0 <==> Precedes(b, a)
  {
    CompareAntisymmetric(a, b);
    PrecedesIffBefore(a, b);
    PrecedesIffBefore(b, a);
    hide Compare, Precedes;
  }

  lemma PrecedesIffBefore(a: Entry, b: Entry)
    ensures Compare(a, b) < 0 <==> Precedes(a, b)
  {
    LexCompareOrder(a.comp.prog.name, b.comp.prog.name);
    LexCompareIsDictionary(a.comp.prog.name, b.comp.prog.name);
    LexCompareOrder(a.comp.prog.tag, b.comp.prog.tag);
    LexCompareIsDictionary(a.comp.prog.tag, b.comp.prog.tag);
    LexCompareOrder(ZeroTag, ZeroTag);
    hide LexCompare, Earlier;
  }

  /** Which of two entries comes first never depends on the order of the arguments. */
  lemma CompareAntisymmetric(a: Entry, b: Entry)
    ensures Compare(a, b) == -Compare(b, a)
    ensures KeyCompare(a, b) == -KeyCompare(b, a)
  {
    LexCompareOrder(a.comp.prog.name, b.comp.prog.name);
    LexCompareOrder(TagOf(a), TagOf(b));
  }

  lemma KeyCompareTransitive(a: Entry, b: Entry, c: Entry)
    requires KeyCompare(a, b) <= 0 && KeyCompare(b, c) <= 0
    ensures KeyCompare(a, c) <= 0
  {
    LexCompareOrder(TagOf(a), TagOf(b));
    LexCompareOrder(TagOf(b), TagOf(c));
    LexCompareOrder(TagOf(a), TagOf(c));
    LexCompareTransitive(TagOf(a), TagOf(b), TagOf(c));
  }

  /** Entries that the first three rules leave tied. */
  ghost predicate SameGroup(a: Entry, b: Entry) {
    a.comp.runPrio == b.comp.runPrio && a.comp.prog.name == b.comp.prog.name && a.loaded == b.loaded
  }

  /** An entry without an object whose (tag, load time) lies between those of two
      entries with objects that the instruction count orders the other way round. */
  ghost predicate Crossing(p1: Entry, p2: Entry, q: Entry) {
    && SameGroup(p1, p2) && SameGroup(p2, q)
    && p1.hasObject && p2.hasObject && !q.hasObject
    && p1.comp.prog.insnCnt < p2.comp.prog.insnCnt
    && KeyCompare(p2, q) <= 0 && KeyCompare(q, p1) <= 0
  }

  ghost predicate Transitive(s: seq<Entry>) {
    forall x, y, z | x in s && y in s && z in s && Compare(x, y) <= 0 && Compare(y, z) <= 0 ::
      Compare(x, z) <= 0
  }

  ghost predicate NoCrossing(s: seq<Entry>) {
    forall p1, p2, q | p1 in s && p2 in s && q in s :: !Crossing(p1, p2, q)
  }

  lemma LowerRulesTransitive(x: Entry, y: Entry, z: Entry)
    requires SameGroup(x, y) && SameGroup(y, z)
    requires Compare(x, y) <= 0 && Compare(y, z) <= 0
    requires !Crossing(x, y, z) && !Crossing(y, z, x) && !Crossing(z, x, y)
    ensures Compare(x, z) <= 0
  {
    LexCompareOrder(x.comp.prog.name, y.comp.prog.name);
    LexCompareOrder(y.comp.prog.name, z.comp.prog.name);
    LexCompareOrder(x.comp.prog.name, z.comp.prog.name);
    CompareAntisymmetric(x, y);
    CompareAntisymmetric(y, z);
    CompareAntisymmetric(x, z);
    if KeyCompare(x, y) <= 0 && KeyCompare(y, z) <= 0 {
      KeyCompareTransitive(x, y, z);
    }
    if KeyCompare(y, z) <= 0 && KeyCompare(z, x) <= 0 {
      KeyCompareTransitive(y, z, x);
    }
    if KeyCompare(z, x) <= 0 && KeyCompare(x, y) <= 0 {
      KeyCompareTransitive(z, x, y);
    }
  }

  lemma UpperRulesTransitive(x: Entry, y: Entry, z: Entry)
    requires Compare(x, y) <= 0 && Compare(y, z) <= 0
    requires !(SameGroup(x, y) && SameGroup(y, z))
    ensures Compare(x, z) <= 0
  {
    LexCompareOrder(x.comp.prog.name, y.comp.prog.name);
    LexCompareOrder(y.comp.prog.name, z.comp.prog.name);
    LexCompareOrder(x.comp.prog.name, z.comp.prog.name);
    if LexCompare(x.comp.prog.name, y.comp.prog.name) <= 0 && LexCompare(y.comp.prog.name, z.comp.prog.name) <= 0 {
      LexCompareTransitive(x.comp.prog.name, y.comp.prog.name, z.comp.prog.name);
    }
  }

  /** cmp_xdp_programs() orders a list consistently exactly when the list has no crossing. */
  lemma ConsistentIffNoCrossing(s: seq<Entry>)
    ensures Transitive(s) <==> NoCrossing(s)
  {
    if NoCrossing(s) {
      forall x, y, z | x in s && y in s && z in s && Compare(x, y) <= 0 && Compare(y, z) <= 0
        ensures Compare(x, z) <= 0
      {
        if SameGroup(x, y) && SameGroup(y, z) {
          LowerRulesTransitive(x, y, z);
        } else {
          UpperRulesTransitive(x, y, z);
        }
      }
    }
    forall p1, p2, q | p1 in s && p2 in s && q in s && Crossing(p1, p2, q)
      ensures !Transitive(s)
    {
      LexCompareOrder(p1.comp.prog.name, p2.comp.prog.name);
      LexCompareOrder(p2.comp.prog.name, q.comp.prog.name);
      LexCompareOrder(q.comp.prog.name, p1.comp.prog.name);
      assert Compare(p2, q) <= 0 && Compare(q, p1) <= 0 && Compare(p2, p1) > 0;
    }
  }

  /** The shapes of a first attempt: pinned components are loaded and have no object,
      the programs of the request have an object and are not loaded. */
  ghost predicate NormalShape(e: Entry) {
    e.loaded != e.hasObject
  }

  lemma NormalShapesConsistent(s: seq<Entry>)
    requires forall e | e in s :: NormalShape(e)
    ensures Transitive(s)
  {
    forall p1, p2, q | p1 in s && p2 in s && q in s
      ensures !Crossing(p1, p2, q)
    {
      assert NormalShape(p2) && NormalShape(q);
    }
    ConsistentIffNoCrossing(s);
  }

  /** A retry after a lost race sorts programs that were loaded by the failed attempt
      and still carry their object; the three below compare in a cycle. */
  lemma RetryShapesCanCycle() returns (a: Entry, b: Entry, c: Entry)
    ensures a.loaded && b.loaded && c.loaded
    ensures a.hasObject && b.hasObject && !c.hasObject
    ensures Compare(a, b) < 0 && Compare(b, c) < 0 && Compare(c, a) < 0
  {
    a := Entry(Component(KernelProg(1, [], [3, 0, 0, 0, 0, 0, 0, 0], 0, 1), 50, {2}), true, true);
    b := Entry(Component(KernelProg(2, [], [1, 0, 0, 0, 0, 0, 0, 0], 0, 2), 50, {2}), true, true);
    c := Entry(Component(KernelProg(3, [], [2, 0, 0, 0, 0, 0, 0, 0], 0, 9), 50, {2}), true, false);
  }

  // ---------------------------------------------------------------------------
  // Sorting

  /** In order, for any relation. */
  ghost predicate Ordered(s: seq<Entry>, r: (Entry, Entry) -> bool) {
    forall i, j | 0 <= i < j < |s| :: r(s[i], s[j])
  }

  ghost predicate Sorted(s: seq<Entry>) {
    Ordered(s, (a, b) => Compare(a, b) <= 0)
  }

  /** Lower run priorities come first, and names in alphabetical order within one priority. */
  ghost predicate RunsBefore(a: Component, b: Component) {
    a.runPrio < b.runPrio || (a.runPrio == b.runPrio && (a.prog.name == b.prog.name || Earlier(a.prog.name, b.prog.name)))
  }

  lemma RunsBeforeIs(a: Component, b: Component)
    ensures RunsBefore(a, b) <==>
            a.runPrio < b.runPrio || (a.runPrio == b.runPrio && LexCompare(a.prog.name, b.prog.name) <= 0)
  {
    LexCompareOrder(a.prog.name, b.prog.name);
    LexCompareIsDictionary(a.prog.name, b.prog.name);
  }

  ghost predicate InRunOrder(s: seq<Entry>) {
    Ordered(s, (a: Entry, b: Entry) => RunsBefore(a.comp, b.comp))
  }

  /** All that C promises about qsort(): the elements are permuted, and end up in order
      when the comparison function is consistent on them. */
  ghost predicate CContract(input: seq<Entry>, output: seq<Entry>) {
    Permutation(input, output) && (Transitive(input) ==> Sorted(output))
  }

  /** What qsort() does as a sort that decides by comparisons. Comparisons of different priorities or
      names never contradict each other, so that the result is in run order on every list. */
  ghost predicate QsortResult(input: seq<Entry>, output: seq<Entry>) {
    CContract(input, output) && InRunOrder(output)
  }

  lemma NothingPrecedes(s: seq<Entry>)
    requires Sorted(s)
    ensures forall i, j | 0 <= i < j < |s| :: !Precedes(s[j], s[i])
  {
    hide Compare, Precedes;
    forall i, j | 0 <= i < j < |s|
      ensures !Precedes(s[j], s[i])
    {
      CompareMeans(s[i], s[j]);
    }
  }

  /** r never contradicts the comparison of two elements, nor itself. */
  ghost predicate Agrees(r: (Entry, Entry) -> bool, all: seq<Entry>) {
    && (forall x, y | x in all && y in all :: (Compare(x, y) <= 0 ==> r(x, y)) && (Compare(x, y) > 0 ==> r(y, x)))
    && (forall x, y, z | x in all && y in all && z in all && r(x, y) && r(y, z) :: r(x, z))
  }

  lemma CompareAgrees(all: seq<Entry>)
    requires Transitive(all)
    ensures Agrees((a, b) => Compare(a, b) <= 0, all)
  {
    forall x, y | x in all && y in all
      ensures Compare(x, y) > 0 ==> Compare(y, x) <= 0
    {
      CompareAntisymmetric(x, y);
    }
    hide Compare;
  }

  lemma RunOrderAgrees(all: seq<Entry>)
    ensures Agrees((a: Entry, b: Entry) => RunsBefore(a.comp, b.comp), all)
  {
    forall x: Entry, y: Entry
      ensures Compare(x, y) <= 0 ==> RunsBefore(x.comp, y.comp)
      ensures Compare(x, y) > 0 ==> RunsBefore(y.comp, x.comp)
    {
      LexCompareOrder(x.comp.prog.name, y.comp.prog.name);
      RunsBeforeIs(x.comp, y.comp);
      RunsBeforeIs(y.comp, x.comp);
      hide RunsBefore;
    }
    forall x: Component, y: Component, z: Component | RunsBefore(x, y) && RunsBefore(y, z)
      ensures RunsBefore(x, z)
    {
      RunsBeforeIs(x, y);
      RunsBeforeIs(y, z);
      RunsBeforeIs(x, z);
      hide RunsBefore;
      if x.runPrio == y.runPrio == z.runPrio {
        LexCompareTransitive(x.prog.name, y.prog.name, z.prog.name);
      }
    }
    hide Compare, RunsBefore;
  }

  /** Whatever is in front of the first element is in front of all. */
  lemma PutFirst(e: Entry, s: seq<Entry>, r: (Entry, Entry) -> bool)
    requires Ordered(s, r) && forall x | x in s :: r(e, x)
    ensures Ordered([e] + s, r)
  {
  }

  lemma FirstOfAll(e: Entry, s: seq<Entry>, all: seq<Entry>, r: (Entry, Entry) -> bool)
    requires Agrees(r, all) && Ordered(s, r) && e in all && (forall x | x in s :: x in all)
    requires s != [] && r(e, s[0])
    ensures forall x | x in s :: r(e, x)
  {
    hide Compare;
    forall j | 0 <= j < |s|
      ensures r(e, s[j])
    {
      assert s[j] in all && s[0] in all;
    }
  }

  // Insertion sort

  function Insert(e: Entry, s: seq<Entry>): seq<Entry> {
    if s == [] || Compare(e, s[0]) <= 0 then [e] + s else [s[0]] + Insert(e, s[1..])
  }

  function InsertionSort(s: seq<Entry>): seq<Entry> {
    if s == [] then [] else Insert(s[0], InsertionSort(s[1..]))
  }

  lemma {:induction false} InsertPermutes(e: Entry, s: seq<Entry>)
    ensures multiset(Insert(e, s)) == multiset{e} + multiset(s)
  {
    if s != [] && Compare(e, s[0]) > 0 {
      InsertPermutes(e, s[1..]);
      assert s == [s[0]] + s[1..];
    }
  }

  lemma {:induction false} InsertOrdered(e: Entry, s: seq<Entry>, all: seq<Entry>, r: (Entry, Entry) -> bool)
    requires Agrees(r, all) && Ordered(s, r) && e in all && (forall x | x in s :: x in all)
    ensures Ordered(Insert(e, s), r)
  {
    hide Compare, Agrees;
    if s == [] {
    } else if Compare(e, s[0]) <= 0 {
      Related(e, s[0], all, r);
      FirstOfAll(e, s, all, r);
      PutFirst(e, s, r);
    } else {
      Related(e, s[0], all, r);
      var tail := s[1..];
      var rest := Insert(e, tail);
      InsertOrdered(e, tail, all, r);
      InsertPermutes(e, tail);
      PermutationMember(rest, [e] + tail);
      assert forall x | x in rest :: x == e || x in tail;
      PutFirst(s[0], rest, r);
    }
  }

  lemma Related(x: Entry, y: Entry, all: seq<Entry>, r: (Entry, Entry) -> bool)
    requires Agrees(r, all) && x in all && y in all
    ensures if Compare(x, y) <= 0 then r(x, y) else r(y, x)
  {
    hide Compare;
  }

  lemma {:induction false} InsertionSortOrders(s: seq<Entry>, all: seq<Entry>, r: (Entry, Entry) -> bool)
    requires Agrees(r, all) && forall x | x in s :: x in all
    ensures Permutation(s, InsertionSort(s)) && Ordered(InsertionSort(s), r)
  {
    hide Agrees, Insert;
    if s != [] {
      var rest := InsertionSort(s[1..]);
      assert s == [s[0]] + s[1..];
      InsertionSortOrders(s[1..], all, r);
      InsertPermutes(s[0], rest);
      PermutationMember(s[1..], rest);
      InsertOrdered(s[0], rest, all, r);
    }
  }

  /** Insertion sort is such a sort, on every list. */
  lemma InsertionSortIsQsort(s: seq<Entry>)
    ensures QsortResult(s, InsertionSort(s))
  {
    hide Compare, Agrees, Ordered, InsertionSort, RunsBefore;
    RunOrderAgrees(s);
    InsertionSortOrders(s, s, (a: Entry, b: Entry) => RunsBefore(a.comp, b.comp));
    if Transitive(s) {
      CompareAgrees(s);
      InsertionSortOrders(s, s, (a, b) => Compare(a, b) <= 0);
    }
  }

  // Merge sort

  /** From two sorted halves, the first one preferred. */
  function Merge(a: seq<Entry>, b: seq<Entry>): seq<Entry> {
    if a == [] then b
    else if b == [] then a
    else if Compare(a[0], b[0]) <= 0 then [a[0]] + Merge(a[1..], b)
    else [b[0]] + Merge(a, b[1..])
  }

  /** The qsort() of the GNU C library. */
  function MergeSort(s: seq<Entry>): seq<Entry> {
    if |s| <= 1 then s else Merge(MergeSort(s[..|s| / 2]), MergeSort(s[|s| / 2..]))
  }

  lemma {:induction false} MergePermutes(a: seq<Entry>, b: seq<Entry>)
    ensures multiset(Merge(a, b)) == multiset(a) + multiset(b)
  {
    if a != [] && b != [] {
      if Compare(a[0], b[0]) <= 0 {
        MergePermutes(a[1..], b);
        assert a == [a[0]] + a[1..];
      } else {
        MergePermutes(a, b[1..]);
        assert b == [b[0]] + b[1..];
      }
    }
  }

  lemma MergeMembers(a: seq<Entry>, b: seq<Entry>)
    ensures forall x | x in Merge(a, b) :: x in a || x in b
  {
    MergePermutes(a, b);
    PermutationMember(Merge(a, b), a + b);
  }

  lemma {:induction false} MergeOrdered(a: seq<Entry>, b: seq<Entry>, all: seq<Entry>, r: (Entry, Entry) -> bool)
    requires Agrees(r, all) && Ordered(a, r) && Ordered(b, r) && (forall x | x in a || x in b :: x in all)
    ensures Ordered(Merge(a, b), r)
  {
    hide Compare, Agrees;
    if a != [] && b != [] {
      Related(a[0], b[0], all, r);
      if Compare(a[0], b[0]) <= 0 {
        MergeOrdered(a[1..], b, all, r);
        FirstOfAll(a[0], b, all, r);
        MergeMembers(a[1..], b);
        PutFirst(a[0], Merge(a[1..], b), r);
      } else {
        MergeOrdered(a, b[1..], all, r);
        FirstOfAll(b[0], a, all, r);
        MergeMembers(a, b[1..]);
        PutFirst(b[0], Merge(a, b[1..]), r);
      }
    }
  }

  lemma {:induction false} MergeSortOrders(s: seq<Entry>, all: seq<Entry>, r: (Entry, Entry) -> bool)
    requires Agrees(r, all) && forall x | x in s :: x in all
    ensures Permutation(s, MergeSort(s)) && Ordered(MergeSort(s), r)
  {
    hide Agrees, Merge;
    if |s| > 1 {
      var a, b := s[..|s| / 2], s[|s| / 2..];
      assert s == a + b;
      MergeSortOrders(a, all, r);
      MergeSortOrders(b, all, r);
      PermutationMember(a, MergeSort(a));
      PermutationMember(b, MergeSort(b));
      MergePermutes(MergeSort(a), MergeSort(b));
      MergeOrdered(MergeSort(a), MergeSort(b), all, r);
    }
  }

  /** Merge sort is such a sort, on every list. */
  lemma MergeSortIsQsort(s: seq<Entry>)
    ensures QsortResult(s, MergeSort(s))
  {
    hide Compare, Agrees, Ordered, MergeSort, RunsBefore;
    RunOrderAgrees(s);
    MergeSortOrders(s, s, (a: Entry, b: Entry) => RunsBefore(a.comp, b.comp));
    if Transitive(s) {
      CompareAgrees(s);
      MergeSortOrders(s, s, (a, b) => Compare(a, b) <= 0);
    }
  }

  /** For a list without a crossing the C contract is enough. */
  lemma CContractOrders(input: seq<Entry>, output: seq<Entry>)
    requires CContract(input, output) && NoCrossing(input)
    ensures InRunOrder(output)
  {
    ConsistentIffNoCrossing(input);
    RunOrderAgrees(output);
    hide Compare, RunsBefore;
    forall i, j | 0 <= i < j < |output|
      ensures RunsBefore(output[i].comp, output[j].comp)
    {
      assert output[i] in output && output[j] in output;
    }
  }

  // ---------------------------------------------------------------------------
  // What is left open by the sort

  /** How many elements are not behind x. */
  ghost function UpTo(s: seq<Entry>, x: Entry): nat {
    if s == [] then 0 else (if Compare(s[0], x) <= 0 then 1 else 0) + UpTo(s[1..], x)
  }

  lemma {:induction false} UpToAppend(a: seq<Entry>, b: seq<Entry>, x: Entry)
    ensures UpTo(a + b, x) == UpTo(a, x) + UpTo(b, x)
  {
    hide Compare;
    if a == [] {
      assert a + b == b;
    } else {
      UpToAppend(a[1..], b, x);
      assert (a + b)[1..] == a[1..] + b;
    }
  }

  lemma {:induction false} UpToPermutation(a: seq<Entry>, b: seq<Entry>, x: Entry)
    requires Permutation(a, b)
    ensures UpTo(a, x) == UpTo(b, x)
  {
    hide Compare;
    PermutationLength(a, b);
    if a != [] {
      var i := PermutationHead(a, b);
      UpToPermutation(a[1..], b[..i] + b[i + 1..], x);
      UpToAppend(b[..i], b[i + 1..], x);
      UpToAppend(b[..i], b[i..], x);
      assert b == b[..i] + b[i..] && b[i..][1..] == b[i + 1..];
    }
  }

  lemma {:induction false} UpToAll(s: seq<Entry>, x: Entry, all: bool)
    requires forall e | e in s :: Compare(e, x) <= 0 <==> all
    ensures UpTo(s, x) == if all then |s| else 0
  {
    hide Compare;
    if s != [] {
      UpToAll(s[1..], x, all);
    }
  }

  /** In a sorted list at least the elements up to a place are not behind the one in that place. */
  lemma UpToPlace(s: seq<Entry>, i: nat)
    requires Sorted(s) && i < |s|
    ensures UpTo(s, s[i]) >= i + 1
  {
    hide Compare;
    var front := s[..i + 1];
    SelfCompare(s[i]);
    assert forall e | e in front :: Compare(e, s[i]) <= 0;
    UpToAll(front, s[i], true);
    UpToAppend(front, s[i + 1..], s[i]);
    assert s == front + s[i + 1..];
  }

  /** If the element in a place is behind x, so is everything after it. */
  lemma UpToBefore(s: seq<Entry>, i: nat, x: Entry)
    requires Sorted(s) && Transitive(s) && i < |s| && x in s && Compare(s[i], x) > 0
    ensures UpTo(s, x) <= i
  {
    hide Compare, Transitive, Sorted;
    forall e | e in s[i..]
      ensures Compare(e, x) > 0
    {
      NotUpTo(s, x, i, e);
    }
    UpToAll(s[i..], x, false);
    UpToAtMost(s[..i], x);
    UpToAppend(s[..i], s[i..], x);
    assert s == s[..i] + s[i..];
  }

  lemma NotUpTo(s: seq<Entry>, x: Entry, i: nat, e: Entry)
    requires Transitive(s) && Sorted(s) && x in s && i < |s| && e in s[i..] && Compare(s[i], x) > 0
    ensures Compare(e, x) > 0
  {
    SelfCompare(s[i]);
    hide Compare;
    assert Compare(s[i], e) <= 0;
  }

  /** Of two sorted arrangements of one list, neither has anything smaller in any place. */
  lemma NotBefore(a: seq<Entry>, b: seq<Entry>, i: nat)
    requires Permutation(a, b) && Transitive(b) && Sorted(a) && Sorted(b) && i < |a| == |b|
    ensures Compare(a[i], b[i]) >= 0
  {
    hide Compare, Transitive, Sorted;
    PermutationMember(a, b);
    CompareAntisymmetric(a[i], b[i]);
    if Compare(a[i], b[i]) < 0 {
      assert a[i] in a;
      UpToPlace(a, i);
      UpToBefore(b, i, a[i]);
      UpToPermutation(a, b, a[i]);
    }
  }

  lemma SelfCompare(x: Entry)
    ensures Compare(x, x) == 0
  {
    CompareAntisymmetric(x, x);
  }

  lemma {:induction false} UpToAtMost(s: seq<Entry>, x: Entry)
    ensures UpTo(s, x) <= |s|
  {
    hide Compare;
    if s != [] {
      UpToAtMost(s[1..], x);
    }
  }

  /** On a list without a crossing all sorts agree, whatever order the list is given in: two results
      differ only between elements that the comparison leaves tied. */
  lemma SortedUpToTies(a: seq<Entry>, b: seq<Entry>, a': seq<Entry>, b': seq<Entry>)
    requires NoCrossing(a) && Permutation(a, b) && CContract(a, a') && CContract(b, b')
    ensures |a'| == |b'| && forall i | 0 <= i < |a'| :: Compare(a'[i], b'[i]) == 0
  {
    hide Compare, Transitive, Sorted, NoCrossing;
    ConsistentIffNoCrossing(a);
    TransitivePermutation(a, b);
    TransitivePermutation(a, a');
    TransitivePermutation(b, b');
    PermutationLength(a', b');
    forall i | 0 <= i < |a'|
      ensures Compare(a'[i], b'[i]) == 0
    {
      NotBefore(a', b', i);
      NotBefore(b', a', i);
      CompareAntisymmetric(a'[i], b'[i]);
    }
  }

  lemma TransitivePermutation(a: seq<Entry>, b: seq<Entry>)
    requires Permutation(a, b) && Transitive(a)
    ensures Transitive(b)
  {
    hide Compare;
    PermutationMember(a, b);
  }

  /** x is somewhere in front of y. */
  ghost predicate InFrontOf(s: seq<Entry>, x: Entry, y: Entry) {
    exists i, j :: 0 <= i < j < |s| && s[i] == x && s[j] == y
  }

  lemma {:induction false} InsertKeepsFront(e: Entry, s: seq<Entry>, x: Entry, y: Entry)
    requires InFrontOf(s, x, y)
    ensures InFrontOf(Insert(e, s), x, y)
  {
    hide Compare;
    var i, j :| 0 <= i < j < |s| && s[i] == x && s[j] == y;
    var t := Insert(e, s);
    if Compare(e, s[0]) <= 0 {
      assert t[i + 1] == x && t[j + 1] == y;
    } else if i > 0 {
      assert s[1..][i - 1] == x && s[1..][j - 1] == y;
      InsertKeepsFront(e, s[1..], x, y);
      var k, l :| 0 <= k < l < |t[1..]| && t[1..][k] == x && t[1..][l] == y;
      assert t[k + 1] == x && t[l + 1] == y;
    } else {
      InsertPermutes(e, s[1..]);
      PermutationMember(t[1..], [e] + s[1..]);
      assert s[1..][j - 1] == y;
      assert y in t[1..];
      var l :| 0 <= l < |t[1..]| && t[1..][l] == y;
      assert t[0] == x && t[l + 1] == y;
    }
  }

  lemma {:induction false} SortKeepsFront(a: seq<Entry>, b: seq<Entry>, x: Entry, y: Entry)
    requires InFrontOf(InsertionSort(b), x, y)
    ensures InFrontOf(InsertionSort(a + b), x, y)
  {
    hide Insert, InFrontOf;
    if a == [] {
      assert a + b == b;
    } else {
      SortKeepsFront(a[1..], b, x, y);
      assert (a + b)[1..] == a[1..] + b;
      InsertKeepsFront(a[0], InsertionSort(a[1..] + b), x, y);
    }
  }

  /** Given in this order, the ends of a crossing come out the wrong way round. */
  lemma CrossingSorts(p1: Entry, p2: Entry, q: Entry)
    requires Crossing(p1, p2, q)
    ensures Compare(p2, p1) > 0 && InFrontOf(InsertionSort([p2, q, p1]), p2, p1)
  {
    LexCompareOrder(p1.comp.prog.name, p2.comp.prog.name);
    var one, two := [p1], [q, p1];
    assert InsertionSort(one) == Insert(p1, InsertionSort(one[1..])) == one;
    assert two[1..] == one && InsertionSort(two) == two;
    var three := [p2, q, p1];
    assert three[1..] == two && InsertionSort(three) == three;
    assert three[0] == p2 && three[2] == p1;
  }

  lemma TakeOut(s: seq<Entry>, x: Entry) returns (rest: seq<Entry>)
    requires x in s
    ensures multiset(s) == multiset(rest) + multiset{x}
    ensures forall y | y in s && y != x :: y in rest
  {
    var i :| 0 <= i < |s| && s[i] == x;
    rest := s[..i] + s[i + 1..];
    assert s == s[..i] + [x] + s[i + 1..];
  }

  /** The sort puts a list in the order of the comparison, whichever way the list is given, if and only
      if it has no crossing. */
  lemma SortsAnyWayIffNoCrossing(s: seq<Entry>)
    ensures (forall a: seq<Entry> | Permutation(s, a) :: Sorted(InsertionSort(a))) <==> NoCrossing(s)
  {
    hide Compare, InsertionSort;
    if NoCrossing(s) {
      ConsistentIffNoCrossing(s);
      forall a: seq<Entry> | Permutation(s, a)
        ensures Sorted(InsertionSort(a))
      {
        TransitivePermutation(s, a);
        InsertionSortIsQsort(a);
      }
    } else {
      var p1, p2, q :| p1 in s && p2 in s && q in s && Crossing(p1, p2, q);
      var a := WrongWayRound(s, p1, p2, q);
      assert !Sorted(InsertionSort(a));
    }
  }

  lemma WrongWayRound(s: seq<Entry>, p1: Entry, p2: Entry, q: Entry) returns (a: seq<Entry>)
    requires p1 in s && p2 in s && q in s && Crossing(p1, p2, q)
    ensures Permutation(s, a) && !Sorted(InsertionSort(a))
  {
    hide Compare, InsertionSort;
    var r1 := TakeOut(s, p1);
    var r2 := TakeOut(r1, p2);
    var r3 := TakeOut(r2, q);
    a := r3 + [p2, q, p1];
    assert multiset([p2, q, p1]) == multiset{p2, q, p1};
    CrossingSorts(p1, p2, q);
    SortKeepsFront(r3, [p2, q, p1], p2, p1);
  }
}
