/** xdp_multiprog__generate(): merge or remove, sort, write the configuration, link. */
module DispatcherGenerate {
  import opened Common
  import opened DispatcherOrder
  import opened Dispatcher

  /** The programs handed to qsort(). */
  ghost function GenInput(old_mp: Option<seq<Component>>, progs: seq<Entry>, remove: bool): seq<Entry> {
    if old_mp.None? then progs
    else if remove then Pinned(Without(old_mp.value, EntryIds(progs)))
    else Pinned(old_mp.value) + progs
  }

  /** A loaded dispatcher: its frozen configuration and the program linked to each slot. */
  datatype Multiprog = Multiprog(config: Config, links: seq<Component>)

  /** What generate() knows of the old dispatcher: num_links and the list of programs. A read
      that fails after some programs keeps the number and drops the list. */
  datatype OldRead = OldRead(count: nat, list: seq<Component>)

  /** Undefined: the array to be sorted is not filled by valid pointers, because the loop that
      appends the request read past its end or because entries were left unset. */
  datatype GenResult = Generated(mp: Multiprog, order: seq<Entry>) | GenErr(err: Errno) | Undefined

  const SIZE_T: int := 0x1_0000_0000_0000_0000

  /** num_new_progs, computed in size_t. */
  function NewCount(numLinks: nat, numProgs: nat, remove: bool): nat {
    (if remove then numLinks - numProgs else numLinks + numProgs) % SIZE_T
  }

  function OldCount(old_mp: Option<OldRead>): nat {
    if old_mp.Some? then old_mp.value.count else 0
  }

  function OldPrograms(old_mp: Option<OldRead>): Option<seq<Component>> {
    if old_mp.Some? then Some(old_mp.value.list) else None
  }

  datatype Collected = Filled(progs: seq<Entry>) | NotFound | Overrun

  /** Appends the request until numNew entries are there. */
  method AppendRequest(start: seq<Entry>, progs: seq<Entry>, numNew: nat) returns (r: Collected)
    requires numNew >= |start| + |progs|
    ensures r == if numNew == |start| + |progs| then Filled(start + progs) else Overrun
  {
    var out := start;
    var j := 0;
    while |out| < numNew
      invariant 0 <= j <= |progs| && |out| == |start| + j && out == start + progs[..j]
    {
      if j >= |progs| {
        return Overrun;
      }
      out := out + [progs[j]];
      j := j + 1;
    }
    assert progs[..j] == progs;
    r := Filled(out);
  }

  /** The copying loops of xdp_multiprog__generate(). */
  method Collect(old_list: seq<Component>, progs: seq<Entry>, remove: bool, numNew: nat)
    returns (r: Collected)
    requires !remove ==> numNew >= |old_list| + |progs|
    ensures r.Filled? ==> r.progs == GenInput(Some(old_list), progs, remove)
    ensures var n := |GenInput(Some(old_list), progs, remove)|;
            (r.Filled? <==> n == numNew) && (r.NotFound? <==> n > numNew) && (r.Overrun? <==> n < numNew)
  {
    var out: seq<Entry> := [];
    var k := 0;
    while k < |old_list|
      invariant 0 <= k <= |old_list|
      invariant !remove ==> out == Pinned(old_list[..k])
      invariant remove ==> out == Pinned(Without(old_list[..k], EntryIds(progs)))
      invariant remove ==> |out| <= numNew
    {
      var prog := old_list[k];
      ghost var before := old_list[..k];
      assert old_list[..k + 1] == before + [prog];
      if remove {
        WithoutSnoc(before, prog, EntryIds(progs));
        var found := FindId(progs, prog.prog.id);
        if !found {
          if |out| >= numNew {
            WithoutPrefix(old_list, k + 1, EntryIds(progs));
            return NotFound;
          }
          out := out + [Entry(prog, true, false)];
        }
      } else {
        out := out + [Entry(prog, true, false)];
      }
      k := k + 1;
    }
    assert old_list[..k] == old_list;
    if !remove {
      r := AppendRequest(out, progs, numNew);
    } else if |out| < numNew {
      r := Overrun;
    } else {
      r := Filled(out);
    }
  }

  method FindId(progs: seq<Entry>, id: nat) returns (found: bool)
    ensures found <==> id in EntryIds(progs)
  {
    found := false;
    var j := 0;
    while j < |progs|
      invariant 0 <= j <= |progs|
      invariant found <==> exists m :: 0 <= m < j && progs[m].comp.prog.id == id
    {
      if progs[j].comp.prog.id == id {
        found := true;
      }
      j := j + 1;
    }
    assert found ==> exists e :: e in progs && e.comp.prog.id == id;
  }

  lemma WithoutSnoc(list: seq<Component>, c: Component, ids: set<nat>)
    ensures Without(list + [c], ids) == Without(list, ids) + (if c.prog.id in ids then [] else [c])
  {
    if list == [] {
      assert list + [c] == [c];
    } else {
      assert (list + [c])[1..] == list[1..] + [c];
      WithoutSnoc(list[1..], c, ids);
    }
  }

  lemma WithoutPrefix(list: seq<Component>, k: nat, ids: set<nat>)
    requires k <= |list|
    ensures |Without(list[..k], ids)| <= |Without(list, ids)|
    decreases |list| - k
  {
    if k < |list| {
      assert list[..k + 1] == list[..k] + [list[k]];
      WithoutSnoc(list[..k], list[k], ids);
      WithoutPrefix(list, k + 1, ids);
    } else {
      assert list[..k] == list;
    }
  }

  /** The configuration loop over the fixed-size arrays of struct xdp_dispatcher_config. */
  method WriteConfig(progs: seq<Entry>) returns (config: Config)
    requires |progs| <= MAX_DISPATCHER_ACTIONS
    ensures config == ConfigOf(Components(progs))
  {
    var chainCalls := new Bitmap[MAX_DISPATCHER_ACTIONS](_ => {});
    var runPrios := new nat[MAX_DISPATCHER_ACTIONS](_ => 0);
    var i := 0;
    while i < |progs|
      invariant 0 <= i <= |progs|
      invariant forall k | 0 <= k < i ::
        chainCalls[k] == progs[k].comp.chainCalls + {XDP_DISPATCHER_RETVAL} && runPrios[k] == progs[k].comp.runPrio
      invariant forall k | i <= k < MAX_DISPATCHER_ACTIONS :: chainCalls[k] == {} && runPrios[k] == 0
    {
      chainCalls[i] := progs[i].comp.chainCalls + {XDP_DISPATCHER_RETVAL};
      runPrios[i] := progs[i].comp.runPrio;
      i := i + 1;
    }
    config := Config(|progs|, chainCalls[..], runPrios[..]);
    assert config.chainCalls == ConfigOf(Components(progs)).chainCalls;
    assert config.runPrios == ConfigOf(Components(progs)).runPrios;
  }

  /** The linking loop: the program for slot i goes to the tail of the list. `fails` says
      which slots the kernel refuses to link. */
  method LinkAll(progs: seq<Entry>, config: Config, fails: set<nat>) returns (links: seq<Component>, ok: bool)
    requires config.numProgsEnabled == |progs|
    ensures ok <==> forall i | 0 <= i < |progs| :: i !in fails
    ensures ok ==> links == Components(progs)
  {
    links := [];
    var i := 0;
    while i < |progs|
      invariant 0 <= i <= |progs| && links == Components(progs[..i])
      invariant forall k | 0 <= k < i :: k !in fails
    {
      if i in fails || |links| >= config.numProgsEnabled {
        return links, false;
      }
      links := links + [progs[i].comp];
      i := i + 1;
      assert links == Components(progs[..i]);
    }
    assert progs[..i] == progs;
    ok := true;
  }

  /** What generate() says about a request that is not empty: too many programs, an array that is
      not filled, a program to remove that is not there, or, when num_new_progs is the number of
      programs to sort, a sorted and linked dispatcher or another error. */
  ghost predicate Answers(old_mp: Option<OldRead>, progs: seq<Entry>, remove: bool, r: GenResult) {
    var n := NewCount(OldCount(old_mp), |progs|, remove);
    var input := GenInput(OldPrograms(old_mp), progs, remove);
    && (r == GenErr(E2BIG) <==> n > MAX_DISPATCHER_ACTIONS)
    && (r == Undefined <==> |input| < n <= MAX_DISPATCHER_ACTIONS)
    && (r == GenErr(EINVAL) <==> n < |input| && n <= MAX_DISPATCHER_ACTIONS)
    && (r == GenErr(OtherErr) || r.Generated? <==> n == |input| <= MAX_DISPATCHER_ACTIONS)
    && (r.Generated? ==>
          && QsortResult(input, r.order) && r.mp.links == Components(r.order)
          && |r.mp.links| == n && r.mp.config == ConfigOf(r.mp.links))
  }

  /** xdp_multiprog__generate(). `dispatcherFails` stands for the failures before linking
      (opening, checking or loading the dispatcher object). */
  method Generate(progs: seq<Entry>, old_mp: Option<OldRead>, remove: bool,
                  dispatcherFails: bool, linkFails: set<nat>) returns (r: GenResult)
    requires |progs| < SIZE_T / 4
    requires old_mp.Some? ==> |old_mp.value.list| <= old_mp.value.count < SIZE_T / 4
    ensures progs == [] || (old_mp.None? && remove) ==> r == GenErr(EINVAL)
    ensures progs != [] && (old_mp.Some? || !remove) ==>
              && Answers(old_mp, progs, remove, r)
              && (r == GenErr(OtherErr) ==>
                    dispatcherFails || exists i | 0 <= i < NewCount(OldCount(old_mp), |progs|, remove) :: i in linkFails)
              && (r.Generated? ==> !dispatcherFails && forall i | 0 <= i < |r.mp.links| :: i !in linkFails)
  {
    if progs == [] || (old_mp.None? && remove) {
      return GenErr(EINVAL);
    }
    var numNew := NewCount(OldCount(old_mp), |progs|, remove);
    if numNew > MAX_DISPATCHER_ACTIONS {
      return GenErr(E2BIG);
    }
    var newProgs := progs;
    if old_mp.Some? {
      var c := Collect(old_mp.value.list, progs, remove, numNew);
      if c.NotFound? {
        return GenErr(EINVAL);
      }
      if c.Overrun? {
        return Undefined;
      }
      newProgs := c.progs;
    }
    r := Build(newProgs, dispatcherFails, linkFails);
  }

  /** From the array of programs to the linked dispatcher. */
  method Build(newProgs: seq<Entry>, dispatcherFails: bool, linkFails: set<nat>) returns (r: GenResult)
    requires |newProgs| <= MAX_DISPATCHER_ACTIONS
    ensures r == GenErr(OtherErr) <==> dispatcherFails || exists i | 0 <= i < |newProgs| :: i in linkFails
    ensures r.Generated? || r == GenErr(OtherErr)
    ensures r.Generated? ==>
              && QsortResult(newProgs, r.order) && r.mp.links == Components(r.order)
              && |r.mp.links| == |newProgs| && r.mp.config == ConfigOf(r.mp.links)
  {
    var order := MergeSort(newProgs);
    MergeSortIsQsort(newProgs);
    PermutationLength(newProgs, order);
    var config := WriteConfig(order);
    if dispatcherFails {
      return GenErr(OtherErr);
    }
    var links, ok := LinkAll(order, config, linkFails);
    if !ok {
      return GenErr(OtherErr);
    }
    r := Generated(Multiprog(config, links), order);
  }

  /** For an attach the array is filled properly if and only if num_links is the length of the
      list; otherwise the loop reads past the end of the request. */
  lemma AttachFillsIffCountIsExact(old_mp: OldRead, progs: seq<Entry>)
    requires |progs| < SIZE_T / 4 && |old_mp.list| <= old_mp.count < SIZE_T / 4
    ensures NewCount(old_mp.count, |progs|, false) == |GenInput(Some(old_mp.list), progs, false)| <==>
            old_mp.count == |old_mp.list|
    ensures NewCount(old_mp.count, |progs|, false) >= |GenInput(Some(old_mp.list), progs, false)|
  {
  }

  /** A dispatcher of two programs whose second pin could not be read, and one program to attach:
      two entries are wanted, and there is one. */
  lemma ReadPastTheRequest(first: Entry)
    ensures var n := NewCount(1, |[first]|, false);
            |GenInput(Some([]), [first], false)| < n <= MAX_DISPATCHER_ACTIONS
  {
  }

  /** A removal of distinct programs from the list that was read leaves as many as expected if and
      only if all of them were there. */
  lemma RemovalSize(list: seq<Component>, progs: seq<Entry>)
    requires DistinctIds(list) && DistinctEntries(progs) && |progs| <= |list| < SIZE_T
    ensures |GenInput(Some(list), progs, true)| >= NewCount(|list|, |progs|, true)
    ensures |GenInput(Some(list), progs, true)| == NewCount(|list|, |progs|, true) <==> EntryIds(progs) <= IdSet(list)
  {
    RemovalCount(list, EntryIds(progs));
    DistinctEntriesCount(progs);
  }

  // ---------------------------------------------------------------------------
  // Attach and detach undo each other

  lemma {:induction false} ComponentsPermutation(a: seq<Entry>, b: seq<Entry>)
    requires Permutation(a, b)
    ensures Permutation(Components(a), Components(b))
  {
    PermutationLength(a, b);
    if a != [] {
      var i := PermutationHead(a, b);
      var rest := b[..i] + b[i + 1..];
      ComponentsPermutation(a[1..], rest);
      assert Components(a) == [a[0].comp] + Components(a[1..]);
      assert Components(rest) == Components(b[..i]) + Components(b[i + 1..]);
      assert Components(b) == Components(b[..i]) + [b[i].comp] + Components(b[i + 1..]);
    }
  }

  lemma ComponentsOfPinned(list: seq<Component>)
    ensures Components(Pinned(list)) == list
  {
  }

  /** The part of the order that survives a pin: priority, then name. */
  datatype RunKey = RunKey(runPrio: nat, name: Bytes)

  function KeyOf(c: Component): RunKey {
    RunKey(c.runPrio, c.prog.name)
  }

  function Keys(list: seq<Component>): seq<RunKey> {
    seq(|list|, i requires 0 <= i < |list| => KeyOf(list[i]))
  }

  ghost predicate KeyLeq(a: RunKey, b: RunKey) {
    a.runPrio < b.runPrio || (a.runPrio == b.runPrio && (a.name == b.name || Earlier(a.name, b.name)))
  }

  ghost predicate KeysSorted(s: seq<RunKey>) {
    forall i, j | 0 <= i < j < |s| :: KeyLeq(s[i], s[j])
  }

  lemma {:induction false} KeysPermutation(a: seq<Component>, b: seq<Component>)
    requires Permutation(a, b)
    ensures Permutation(Keys(a), Keys(b))
  {
    PermutationLength(a, b);
    if a != [] {
      var i := PermutationHead(a, b);
      var rest := b[..i] + b[i + 1..];
      KeysPermutation(a[1..], rest);
      assert Keys(a) == [KeyOf(a[0])] + Keys(a[1..]);
      assert Keys(rest) == Keys(b[..i]) + Keys(b[i + 1..]);
      assert Keys(b) == Keys(b[..i]) + [KeyOf(b[i])] + Keys(b[i + 1..]);
    }
  }

  lemma SameSmallestKey(a: seq<RunKey>, b: seq<RunKey>)
    requires Permutation(a, b) && KeysSorted(a) && KeysSorted(b) && a != [] && b != []
    ensures a[0] == b[0]
  {
    PermutationMember(a, b);
    assert a[0] in b && b[0] in a;
    assert KeyLeq(a[0], b[0]) && KeyLeq(b[0], a[0]);
    LexCompareOrder(a[0].name, b[0].name);
    LexCompareIsDictionary(a[0].name, b[0].name);
    LexCompareIsDictionary(b[0].name, a[0].name);
  }

  /** Two sorted arrangements of the same keys are the same sequence. */
  lemma {:induction false} SortedKeysUnique(a: seq<RunKey>, b: seq<RunKey>)
    requires Permutation(a, b) && KeysSorted(a) && KeysSorted(b)
    ensures a == b
  {
    hide KeyLeq;
    PermutationLength(a, b);
    if a != [] {
      SameSmallestKey(a, b);
      assert a == [a[0]] + a[1..] && b == [b[0]] + b[1..];
      assert multiset(a[1..]) == multiset(a) - multiset{a[0]};
      assert multiset(b[1..]) == multiset(b) - multiset{b[0]};
      SortedKeysUnique(a[1..], b[1..]);
    }
  }

  lemma RemovingTheAdded(list: seq<Component>, added: seq<Component>, ids: set<nat>)
    requires ids == IdSet(added) && IdSet(list) !! ids
    ensures Permutation(Without(list + added, ids), list)
  {
    forall c
      ensures multiset(Without(list + added, ids))[c] == multiset(list)[c]
    {
      WithoutMultiplicity(list + added, ids, c);
      assert c in added ==> c.prog.id in ids;
      assert c in list ==> c.prog.id in IdSet(list);
      assert multiset(list + added)[c] == multiset(list)[c] + multiset(added)[c];
    }
  }

  /** Attaching programs and then detaching the same programs gives back the list,
      and in the same order up to ties in priority and name. */
  lemma AttachThenDetachRestores(list: seq<Component>, progs: seq<Entry>, attached: seq<Entry>, restored: seq<Entry>)
    requires IdSet(list) !! EntryIds(progs)
    requires QsortResult(GenInput(Some(list), progs, false), attached)
    requires QsortResult(GenInput(Some(Components(attached)), progs, true), restored)
    ensures Permutation(Components(restored), list)
    ensures KeysSorted(Keys(list)) ==> Keys(Components(restored)) == Keys(list)
  {
    var ids := EntryIds(progs);
    var added := Components(progs);
    ComponentsPermutation(GenInput(Some(list), progs, false), attached);
    assert Components(Pinned(list) + progs) == list + added;
    assert IdSet(added) == ids by {
      forall e | e in progs
        ensures e.comp.prog.id in IdSet(added)
      {
        var i :| 0 <= i < |progs| && progs[i] == e;
        assert added[i] in added;
      }
      forall c | c in added
        ensures c.prog.id in ids
      {
        var i :| 0 <= i < |added| && added[i] == c;
        assert progs[i] in progs;
      }
    }
    WithoutPermutation(list + added, Components(attached), ids);
    RemovingTheAdded(list, added, ids);
    var kept := Without(Components(attached), ids);
    ComponentsOfPinned(kept);
    ComponentsPermutation(Pinned(kept), restored);
    if KeysSorted(Keys(list)) {
      KeysPermutation(Components(restored), list);
      SortedKeysUnique(Keys(Components(restored)), Keys(list));
    }
  }
}
