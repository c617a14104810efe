/** Runs of the dispatcher protocol in which a promise one might expect is not kept. */
module DispatcherRuns {
  import opened Common
  import opened DispatcherOrder
  import opened Dispatcher
  import opened DispatcherGenerate
  import opened DispatcherProtocol
  import opened DispatcherSafety
  import opened DispatcherFold
  import opened DispatcherTheorems

  // ---------------------------------------------------------------------------
  // Parts of runs

  lemma Then(acts: seq<Action>, s: State, a: Action)
    requires Exec(acts) == Some(s)
    ensures Exec(acts + [a]) == Step(s, a)
  {
    assert (acts + [a])[..|acts|] == acts;
  }

  lemma Starts(acts: seq<Action>, s: State, pid: nat, progs: seq<Component>) returns (acts': seq<Action>, s': State)
    requires Exec(acts) == Some(s) && pid !in s.procs && progs != []
    requires WellFormedOp(Attach(progs)) && ReqIds(Attach(progs)) !! s.ids
    ensures Exec(acts') == Some(s')
    ensures s' == s.(procs := s.procs[pid := Proc(Attach(progs), 0, false, Query(0, None), false)],
                     ids := s.ids + ReqIds(Attach(progs)))
  {
    hide Exec, WellFormedOp, ReqIds;
    var a := Start(pid, Attach(progs));
    Then(acts, s, a);
    acts', s' := acts + [a], Step(s, a).value;
  }

  /** An attach that finds the interface empty. */
  lemma LooksEmpty(acts: seq<Action>, s: State, pid: nat) returns (acts': seq<Action>, s': State)
    requires Exec(acts) == Some(s) && s.attached.None?
    requires pid in s.procs && s.procs[pid].op.Attach? && s.procs[pid].phase == Query(0, None)
    ensures Exec(acts') == Some(s') && s' == With(s, pid, At(s.procs[pid], Build(None)))
  {
    hide Exec;
    Then(acts, s, Act(pid, Normal));
    acts', s' := acts + [Act(pid, Normal)], Step(s, Act(pid, Normal)).value;
  }

  /** The steps that lead from an attached dispatcher to reading its pins. */
  lemma Finds(acts: seq<Action>, s: State, pid: nat) returns (acts': seq<Action>, s': State)
    requires Exec(acts) == Some(s) && s.attached.Some?
    requires pid in s.procs && s.procs[pid].phase == Query(0, None)
    ensures Exec(acts') == Some(s') && s' == With(s, pid, At(s.procs[pid], ReadPins(s.attached.value)))
  {
    hide Exec;
    var p := s.procs[pid];
    Then(acts, s, Act(pid, Normal));
    var acts1, s1 := acts + [Act(pid, Normal)], Step(s, Act(pid, Normal)).value;
    Then(acts1, s1, Act(pid, Normal));
    acts', s' := acts1 + [Act(pid, Normal)], Step(s1, Act(pid, Normal)).value;
    assert s'.procs == s.procs[pid := At(p, ReadPins(s.attached.value))];
  }

  /** An attach that reads what is attached. */
  lemma Looks(acts: seq<Action>, s: State, pid: nat) returns (acts': seq<Action>, s': State)
    requires Exec(acts) == Some(s) && s.attached.Some?
    requires pid in s.procs && s.procs[pid].op.Attach? && s.procs[pid].phase == Query(0, None)
    ensures Exec(acts') == Some(s')
    ensures s' == With(s, pid, At(s.procs[pid], Build(Some(OldMp(s.attached.value, false, |Current(s)|, Current(s), false)))))
  {
    hide Exec, IdsOK, RequestsPrivate, CreatorsOK, HistoryOK, ProcOK, ReadBack, LinkedCount, IsRest, PinDir, ConfigOf;
    var acts1, s1 := Finds(acts, s, pid);
    ReachableInv(acts1);
    var d := s.attached.value;
    ReadGivesLinks(s1, d);
    assert DispOK(s1.disp[d]);
    ConfigOfShape(s1.disp[d].mp.links);
    Then(acts1, s1, Act(pid, Normal));
    acts', s' := acts1 + [Act(pid, Normal)], Step(s1, Act(pid, Normal)).value;
    assert s'.procs == s.procs[pid := s'.procs[pid]];
  }

  lemma ConfigOfShape(links: seq<Component>)
    requires 1 <= |links| <= MAX_DISPATCHER_ACTIONS
    ensures ConfigShape(ConfigOf(links)) && ConfigOf(links).numProgsEnabled == |links|
  {
  }

  /** An attach whose read fails after so many programs. */
  lemma Misreads(acts: seq<Action>, s: State, pid: nat, after: nat) returns (acts': seq<Action>, s': State)
    requires Exec(acts) == Some(s) && s.attached.Some? && (after == 0 || after < |Current(s)|)
    requires pid in s.procs && s.procs[pid].op.Attach? && s.procs[pid].phase == Query(0, None)
    ensures Exec(acts') == Some(s')
    ensures s' == With(s, pid, At(s.procs[pid], Build(Some(OldMp(s.attached.value, true, after, [], true)))))
  {
    hide Exec, IdsOK, RequestsPrivate, CreatorsOK, HistoryOK, ProcOK, ReadBack, LinkedCount, IsRest, PinDir, ConfigOf;
    var acts1, s1 := Finds(acts, s, pid);
    ReachableInv(acts1);
    var d := s.attached.value;
    ReadGivesLinks(s1, d);
    assert DispOK(s1.disp[d]);
    ConfigOfShape(s1.disp[d].mp.links);
    var a := Act(pid, PinsUnreadable(after));
    Then(acts1, s1, a);
    acts', s' := acts1 + [a], Step(s1, a).value;
    assert s'.procs == s.procs[pid := s'.procs[pid]];
  }

  /** The new dispatcher d, loaded and pinned. */
  ghost predicate Prepared(s: State, pid: nat, d: nat, s': State)
    requires pid in s.procs && s.procs[pid].phase.Build?
  {
    var p := s.procs[pid];
    && d in s'.disp && s'.disp == s.disp[d := s'.disp[d]] && s'.disp[d].creator == pid
    && Permutation(s'.disp[d].mp.links, Components(BuildInput(p.phase.oldMp, p)))
    && s'.pins == s.pins[d := PinDir(s'.disp[d].mp.links)]
    && s'.procs == s.procs[pid := p.(phase := Swap(p.phase.oldMp, Some(d)), loaded := true)]
    && s'.ids == s.ids + {d}
    && s'.attached == s.attached && s'.retired == s.retired && s'.abandoned == s.abandoned && s'.history == s.history
  }

  lemma Loads(acts: seq<Action>, s: State, pid: nat, d: nat, order: seq<Entry>) returns (acts': seq<Action>, s': State)
    requires Exec(acts) == Some(s) && pid in s.procs && s.procs[pid].phase.Build? && d !in s.ids
    requires CountExact(s.procs[pid].phase.oldMp)
    requires |BuildInput(s.procs[pid].phase.oldMp, s.procs[pid])| <= MAX_DISPATCHER_ACTIONS
    requires QsortResult(BuildInput(s.procs[pid].phase.oldMp, s.procs[pid]), order)
    ensures Exec(acts') == Some(s') && d in s'.disp && s'.disp == s.disp[d := s'.disp[d]] && s'.disp[d].creator == pid
    ensures s'.disp[d].mp.links == Components(order)
    ensures var p := s.procs[pid];
            s' == s.(disp := s'.disp, ids := s.ids + {d},
                     procs := s.procs[pid := p.(phase := PinNew(p.phase.oldMp, d), loaded := true)])
  {
    hide Exec, BuildInput, QsortResult, PinDir, ConfigOf, Components;
    var a := Act(pid, Load(d, order));
    Then(acts, s, a);
    acts', s' := acts + [a], Step(s, a).value;
  }

  /** The sort may give any order that it can. */
  lemma PreparesAs(acts: seq<Action>, s: State, pid: nat, d: nat, order: seq<Entry>) returns (acts': seq<Action>, s': State)
    requires Exec(acts) == Some(s) && pid in s.procs && s.procs[pid].phase.Build? && d !in s.ids
    requires CountExact(s.procs[pid].phase.oldMp)
    requires |BuildInput(s.procs[pid].phase.oldMp, s.procs[pid])| <= MAX_DISPATCHER_ACTIONS
    requires QsortResult(BuildInput(s.procs[pid].phase.oldMp, s.procs[pid]), order)
    ensures Exec(acts') == Some(s') && Prepared(s, pid, d, s') && s'.disp[d].mp.links == Components(order)
  {
    hide Exec, BuildInput, QsortResult, PinDir, ConfigOf, Components;
    var p := s.procs[pid];
    SortKeepsComponents(BuildInput(p.phase.oldMp, p), order);
    var acts1, s1 := Loads(acts, s, pid, d, order);
    Then(acts1, s1, Act(pid, Normal));
    acts', s' := acts1 + [Act(pid, Normal)], Step(s1, Act(pid, Normal)).value;
    assert s'.procs == s.procs[pid := s'.procs[pid]];
  }

  lemma Prepares(acts: seq<Action>, s: State, pid: nat, d: nat) returns (acts': seq<Action>, s': State)
    requires Exec(acts) == Some(s) && pid in s.procs && s.procs[pid].phase.Build? && d !in s.ids
    requires CountExact(s.procs[pid].phase.oldMp)
    requires |BuildInput(s.procs[pid].phase.oldMp, s.procs[pid])| <= MAX_DISPATCHER_ACTIONS
    ensures Exec(acts') == Some(s') && Prepared(s, pid, d, s')
  {
    hide Exec, BuildInput, QsortResult, Components, Prepared;
    var input := BuildInput(s.procs[pid].phase.oldMp, s.procs[pid]);
    InsertionSortIsQsort(input);
    acts', s' := PreparesAs(acts, s, pid, d, InsertionSort(input));
  }

  lemma SortKeepsComponents(input: seq<Entry>, order: seq<Entry>)
    requires QsortResult(input, order)
    ensures Permutation(Components(order), Components(input))
  {
    ComponentsPermutation(order, input);
  }

  lemma Swaps(acts: seq<Action>, s: State, pid: nat) returns (acts': seq<Action>, s': State)
    requires Exec(acts) == Some(s) && pid in s.procs && s.procs[pid].phase.Swap?
    requires s.attached == Expected(s.procs[pid].phase.oldMp)
    ensures Exec(acts') == Some(s')
    ensures s' == DoCommit(s, pid, s.procs[pid], s.procs[pid].phase.oldMp, s.procs[pid].phase.newDisp)
  {
    hide Exec, DoCommit;
    Then(acts, s, Act(pid, Normal));
    acts', s' := acts + [Act(pid, Normal)], Step(s, Act(pid, Normal)).value;
  }

  /** A swap that comes too late, and its pins removed. */
  lemma Loses(acts: seq<Action>, s: State, pid: nat) returns (acts': seq<Action>, s': State)
    requires Exec(acts) == Some(s) && pid in s.procs && s.procs[pid].phase.Swap? && s.procs[pid].retry < MAX_RETRY
    requires s.procs[pid].phase.oldMp.Some? && s.procs[pid].phase.newDisp.Some?
    requires s.attached != Expected(s.procs[pid].phase.oldMp)
    ensures Exec(acts') == Some(s')
    ensures var p := s.procs[pid];
            s' == s.(pins := s.pins - {p.phase.newDisp.value},
                     procs := s.procs[pid := p.(retry := p.retry + 1, phase := Query(0, None))])
  {
    hide Exec;
    Then(acts, s, Act(pid, Normal));
    var acts1, s1 := acts + [Act(pid, Normal)], Step(s, Act(pid, Normal)).value;
    Then(acts1, s1, Act(pid, Normal));
    acts', s' := acts1 + [Act(pid, Normal)], Step(s1, Act(pid, Normal)).value;
    assert s'.procs == s.procs[pid := s'.procs[pid]];
  }

  // ---------------------------------------------------------------------------
  // The programs of the runs

  const First := Component(KernelProg(1, [], [2, 0, 0, 0, 0, 0, 0, 0], 0, 9), 50, {2})
  const Second := Component(KernelProg(2, [], [3, 0, 0, 0, 0, 0, 0, 0], 0, 1), 50, {2})
  const Third := Component(KernelProg(3, [], [1, 0, 0, 0, 0, 0, 0, 0], 0, 2), 50, {2})
  const Fourth := Component(KernelProg(4, [], [4, 0, 0, 0, 0, 0, 0, 0], 0, 9), 60, {2})
  const Fifth := Component(KernelProg(5, [], [5, 0, 0, 0, 0, 0, 0, 0], 0, 9), 70, {2})
  const Sixth := Component(KernelProg(6, [], [6, 0, 0, 0, 0, 0, 0, 0], 0, 9), 80, {2})

  /** Process 1 attaches to the empty interface and is done. */
  lemma FirstAttach(progs: seq<Component>) returns (acts: seq<Action>, s: State)
    requires 1 <= |progs| <= MAX_DISPATCHER_ACTIONS && WellFormedOp(Attach(progs)) && 10 !in ReqIds(Attach(progs))
    ensures Exec(acts) == Some(s) && s.attached == Some(10) && Permutation(Current(s), progs)
    ensures s.procs.Keys == {1} && s.procs[1].phase == Done(None) && s.ids == ReqIds(Attach(progs)) + {10}
    ensures |s.history| == 1 && s.history[0].op == Attach(progs) && s.history[0].pid == 1
    ensures s.retired == {} && s.disp.Keys == {10}
  {
    hide WellFormedOp, ReqIds, PinDir, Exec, Components, ConfigOf;
    assert Exec([]) == Some(Init) by {
      ExecEmpty();
    }
    var acts1, s1 := Starts([], Init, 1, progs);
    var acts2, s2 := LooksEmpty(acts1, s1, 1);
    RequestAlone(progs, s2.procs[1]);
    var acts3, s3 := Prepares(acts2, s2, 1, 10);
    acts, s := Swaps(acts3, s3, 1);
  }

  lemma ExecEmpty()
    ensures Exec([]) == Some(Init)
  {
  }

  lemma RequestAlone(progs: seq<Component>, p: Proc)
    requires p.op == Attach(progs)
    ensures |BuildInput(None, p)| == |progs| && Components(BuildInput(None, p)) == progs
  {
  }

  // ---------------------------------------------------------------------------
  // Runs

  /** A read that fails although the pins are there is taken for a legacy program, and the attach that
      follows drops what was attached. */
  lemma UnreadablePinsLoseUpdates() returns (acts: seq<Action>, s: State)
    ensures Exec(acts) == Some(s) && |s.history| == 2
    ensures First in Fold(s.history) && Second in Fold(s.history)
    ensures s.attached.Some? && Current(s) == [Second]
  {
    hide Exec, PinDir, ConfigOf, Permutation;
    var acts1, s1 := FirstAttach([First]);
    var acts2, s2 := Starts(acts1, s1, 2, [Second]);
    var acts3, s3 := Misreads(acts2, s2, 2, 0);
    var p := s3.procs[2];
    assert Components(BuildInput(p.phase.oldMp, p)) == [Second];
    var acts4, s4 := Prepares(acts3, s3, 2, 11);
    acts, s := Swaps(acts4, s4, 2);
    Single(Current(s), Second);
    FoldOfTwo(s.history);
  }

  lemma Single(a: seq<Component>, c: Component)
    requires Permutation(a, [c])
    ensures a == [c]
  {
    PermutationLength(a, [c]);
    PermutationMember(a, [c]);
    assert a[0] in [c];
  }

  lemma FoldOfTwo(h: seq<Commit>)
    requires |h| == 2 && h[0].op.Attach? && h[1].op.Attach?
    ensures Fold(h) == h[0].op.progs + h[1].op.progs
  {
    assert Fold(h[..1][..0]) == [];
    assert Fold(h[..1]) == h[0].op.progs;
  }

  /** A read that fails after the first program leaves its number behind without its list; the attach
      then reads past its request. */
  lemma CountLeftOverGoesAstray() returns (acts: seq<Action>, s: State)
    ensures Exec(acts) == Some(s) && 2 in s.procs && s.procs[2].phase == Astray
  {
    hide Exec, PinDir, ConfigOf, Permutation;
    var acts1, s1 := FirstAttach([First, Third]);
    PermutationLength(Current(s1), [First, Third]);
    var acts2, s2 := Starts(acts1, s1, 2, [Second]);
    var acts3, s3 := Misreads(acts2, s2, 2, 1);
    Then(acts3, s3, Act(2, Normal));
    acts, s := acts3 + [Act(2, Normal)], Step(s3, Act(2, Normal)).value;
  }

  /** Two processes find the interface empty; the second one loses and is about to remove its pins. */
  lemma RaceForTheFirst() returns (acts: seq<Action>, s: State)
    ensures Exec(acts) == Some(s) && s.attached == Some(10) && Current(s) == [First]
    ensures 2 in s.procs && s.procs[2].phase == UnpinNew(11, EEXIST) && s.procs[2].retry == 0
    ensures 11 in s.disp && s.disp[11].creator == 2 && 11 in s.pins && s.retired == {}
  {
    hide Exec, PinDir, ConfigOf, Permutation, BuildInput;
    assert Exec([]) == Some(Init) by {
      ExecEmpty();
    }
    var acts1, s1 := Starts([], Init, 1, [First]);
    var acts2, s2 := Starts(acts1, s1, 2, [Second]);
    var acts3, s3 := LooksEmpty(acts2, s2, 1);
    var acts4, s4 := LooksEmpty(acts3, s3, 2);
    acts, s := BothSwap(acts4, s4);
  }

  lemma BothSwap(acts: seq<Action>, s: State) returns (acts': seq<Action>, s': State)
    requires Exec(acts) == Some(s) && s.attached.None? && s.retired == {} && 10 !in s.ids && 11 !in s.ids
    requires 1 in s.procs && s.procs[1] == Proc(Attach([First]), 0, false, Build(None), false)
    requires 2 in s.procs && s.procs[2] == Proc(Attach([Second]), 0, false, Build(None), false)
    ensures Exec(acts') == Some(s') && s'.attached == Some(10) && Current(s') == [First]
    ensures 2 in s'.procs && s'.procs[2].phase == UnpinNew(11, EEXIST) && s'.procs[2].retry == 0
    ensures 11 in s'.disp && s'.disp[11].creator == 2 && 11 in s'.pins && s'.retired == {}
  {
    hide Exec, PinDir, ConfigOf, Permutation, BuildInput, Components;
    RequestAlone([First], s.procs[1]);
    RequestAlone([Second], s.procs[2]);
    var acts1, s1 := Prepares(acts, s, 1, 10);
    var acts2, s2 := Prepares(acts1, s1, 2, 11);
    var acts3, s3 := Swaps(acts2, s2, 1);
    Single(Current(s3), First);
    var a := Act(2, AlreadyLoaded(EEXIST));
    Then(acts3, s3, a);
    acts', s' := acts3 + [a], Step(s3, a).value;
  }

  /** The loser of the race for an empty interface does not try again. */
  lemma LostFirstAttachIsNotRetried() returns (acts: seq<Action>, s: State)
    ensures Exec(acts) == Some(s) && 2 in s.procs && s.procs[2].phase == Done(Some(EEXIST)) && s.procs[2].retry == 0
    ensures Current(s) == [First] && 11 !in s.pins
  {
    hide Exec, Trim;
    var acts1, s1 := RaceForTheFirst();
    Then(acts1, s1, Act(2, Normal));
    acts, s := acts1 + [Act(2, Normal)], Step(s1, Act(2, Normal)).value;
  }

  /** Pins of a dispatcher that never got attached stay when removing them fails. */
  lemma PinsCanStay() returns (acts: seq<Action>, s: State)
    ensures Exec(acts) == Some(s) && 2 in s.procs && s.procs[2].phase == Done(Some(EEXIST))
    ensures 11 in s.disp && s.disp[11].creator == 2 && s.attached != Some(11) && 11 !in s.retired
    ensures 11 in s.pins
  {
    hide Exec, Trim;
    var acts1, s1 := RaceForTheFirst();
    var a := Act(2, UnpinFails(0, OtherErr));
    Then(acts1, s1, a);
    acts, s := acts1 + [a], Step(s1, a).value;
  }

  /** They also stay when pinning fails after the first file and that file cannot be unlinked again. */
  lemma FailedPinLeavesPins() returns (acts: seq<Action>, s: State)
    ensures Exec(acts) == Some(s) && 1 in s.procs && s.procs[1].phase == Done(Some(OtherErr))
    ensures 10 in s.disp && s.disp[10].creator == 1 && s.attached.None? && 10 !in s.retired
    ensures 10 in s.pins && LinkPin(0) in s.pins[10]
  {
    hide Exec, ConfigOf, PinDir, BuildInput, QsortResult, MergeSort, Components;
    assert Exec([]) == Some(Init) by {
      ExecEmpty();
    }
    var acts1, s1 := Starts([], Init, 1, [First]);
    var acts2, s2 := LooksEmpty(acts1, s1, 1);
    RequestAlone([First], s2.procs[1]);
    var input := BuildInput(None, s2.procs[1]);
    MergeSortIsQsort(input);
    var acts3, s3 := Loads(acts2, s2, 1, 10, MergeSort(input));
    SortedLength(input, MergeSort(input));
    var a := Act(1, PinFails({LinkPin(0)}, OtherErr));
    Then(acts3, s3, a);
    acts, s := acts3 + [a], Step(s3, a).value;
    PinDirKeys(s3.disp[10].mp.links);
  }

  /** A detach of everything whose last unpin fails with EAGAIN starts over although it has done its
      work, and reports that there is nothing to detach. */
  lemma DetachReportsNothingThere() returns (acts: seq<Action>, s: State)
    ensures Exec(acts) == Some(s) && 2 in s.procs && s.procs[2].op == Detach([1])
    ensures s.procs[2].committed && s.procs[2].phase == Done(Some(ENOENT)) && s.attached.None?
  {
    hide Exec, ConfigOf, PinDir, Permutation, Trim;
    var acts1, s1 := FirstAttach([First]);
    Single(Current(s1), First);
    var acts2, s2 := StartsDetach(acts1, s1, 2, 1);
    hide Current, DoCommit, Step;
    var acts3, s3 := Finds(acts2, s2, 2);
    var acts4, s4 := ReadsAll(acts3, s3, 2, First);
    acts, s := DetachesAndLooksAgain(acts4, s4);
  }

  lemma StartsDetach(acts: seq<Action>, s: State, pid: nat, id: nat) returns (acts': seq<Action>, s': State)
    requires Exec(acts) == Some(s) && pid !in s.procs
    ensures Exec(acts') == Some(s')
    ensures s' == s.(procs := s.procs[pid := Proc(Detach([id]), 0, false, Query(0, None), false)])
  {
    hide Exec;
    var a := Start(pid, Detach([id]));
    Then(acts, s, a);
    acts', s' := acts + [a], Step(s, a).value;
    assert s.ids + {} == s.ids;
  }

  lemma DetachesAndLooksAgain(acts: seq<Action>, s: State) returns (acts': seq<Action>, s': State)
    requires Exec(acts) == Some(s) && s.attached.Some? && s.attached.value in s.pins && 2 in s.procs
    requires s.procs[2].op == Detach([1]) && s.procs[2].retry == 0
    requires s.procs[2].phase == Swap(Some(OldMp(s.attached.value, false, 1, [First], false)), None)
    ensures Exec(acts') == Some(s') && 2 in s'.procs && s'.procs[2].op == Detach([1])
    ensures s'.procs[2].committed && s'.procs[2].phase == Done(Some(ENOENT)) && s'.attached.None?
  {
    hide Exec, Trim, PinDir;
    var acts1, s1 := Swaps(acts, s, 2);
    var acts2, s2 := UnpinsAgain(acts1, s1, 2);
    Then(acts2, s2, Act(2, Normal));
    acts', s' := acts2 + [Act(2, Normal)], Step(s2, Act(2, Normal)).value;
  }

  /** A detach of the one attached program reads its pins. */
  lemma ReadsAll(acts: seq<Action>, s: State, pid: nat, c: Component) returns (acts': seq<Action>, s': State)
    requires Exec(acts) == Some(s) && s.attached.Some? && Current(s) == [c] && c.prog.id != 0
    requires pid in s.procs && s.procs[pid].op == Detach([c.prog.id]) && s.procs[pid].phase == ReadPins(s.attached.value)
    ensures Exec(acts') == Some(s')
    ensures s.attached.value in s.pins
    ensures s' == With(s, pid, At(s.procs[pid], Swap(Some(OldMp(s.attached.value, false, 1, [c], false)), None)))
  {
    hide Exec, IdsOK, RequestsPrivate, CreatorsOK, HistoryOK, DetachedOK, ProcOK, ReadBack, LinkedCount, IsRest, PinDir, ConfigOf;
    ReachableInv(acts);
    var d := s.attached.value;
    ReadGivesLinks(s, d);
    assert DispOK(s.disp[d]);
    ConfigOfShape(s.disp[d].mp.links);
    ChecksOut(c);
    Then(acts, s, Act(pid, Normal));
    acts', s' := acts + [Act(pid, Normal)], Step(s, Act(pid, Normal)).value;
  }

  lemma ChecksOut(c: Component)
    requires c.prog.id != 0
    ensures DetachCheck([c.prog.id], [c]).None?
  {
    assert c in [c];
    assert DetachCheck([c.prog.id][1..], [c]).None?;
  }

  lemma UnpinsAgain(acts: seq<Action>, s: State, pid: nat) returns (acts': seq<Action>, s': State)
    requires Exec(acts) == Some(s) && pid in s.procs && s.procs[pid].op.Detach? && s.procs[pid].retry < MAX_RETRY
    requires s.procs[pid].phase.UnpinOld? && s.procs[pid].phase.full && !s.procs[pid].phase.o.legacy
    requires s.procs[pid].phase.o.id in s.pins
    ensures Exec(acts') == Some(s') && s'.attached == s.attached && pid in s'.procs
    ensures s'.procs[pid] == s.procs[pid].(retry := s.procs[pid].retry + 1, phase := Query(0, None))
  {
    hide Exec, Trim;
    var a := Act(pid, UnpinFails(0, EAGAIN));
    Then(acts, s, a);
    acts', s' := acts + [a], Step(s, a).value;
  }

  // ---------------------------------------------------------------------------
  // An attach that lost a race and starts over

  /** One request, given in two orders. */
  function Request(swap: bool): seq<Component> {
    if swap then [Third, Second, Fifth, Sixth] else [Second, Third, Fifth, Sixth]
  }

  /** What the GNU C library makes of the two lists. */
  function Outcome(swap: bool): seq<Component> {
    if swap then [Second, Third, First, Fourth, Fifth, Sixth] else [Third, First, Second, Fourth, Fifth, Sixth]
  }

  lemma SwappedPair(a: Component, b: Component, rest: seq<Component>)
    ensures Permutation([a, b] + rest, [b, a] + rest)
  {
    assert multiset([a, b]) == multiset{a, b} == multiset([b, a]);
  }

  lemma SameRequest()
    ensures Permutation(Request(false), Request(true))
  {
    SwappedPair(Second, Third, [Fifth, Sixth]);
    hide Permutation;
    assert [Second, Third] + [Fifth, Sixth] == Request(false) && [Third, Second] + [Fifth, Sixth] == Request(true);
  }

  /** An attach that lost a race sorts programs it has loaded with programs it found attached, and the
      comparison is not consistent on First, Second and Third. The same request, given in another
      order, then ends with another order of the programs of equal priority and name. */
  lemma RetryDependsOnGivenOrder() returns (acts: seq<Action>, s: State, acts': seq<Action>, s': State)
    ensures Exec(acts) == Some(s) && 2 in s.procs && s.procs[2].op == Attach(Request(false))
    ensures Exec(acts') == Some(s') && 2 in s'.procs && s'.procs[2].op == Attach(Request(true))
    ensures s.procs[2].committed && s.procs[2].retry == 1 && s'.procs[2].committed && s'.procs[2].retry == 1
    ensures Permutation(Request(false), Request(true))
    ensures Current(s) == [Third, First, Second, Fourth, Fifth, Sixth]
    ensures Current(s') == [Second, Third, First, Fourth, Fifth, Sixth]
  {
    hide Exec, Current, Permutation, Request;
    SameRequest();
    acts, s := RetriesAndCommits(false);
    acts', s' := RetriesAndCommits(true);
  }

  lemma RetriesAndCommits(swap: bool) returns (acts: seq<Action>, s: State)
    ensures Exec(acts) == Some(s) && 2 in s.procs && s.procs[2].op == Attach(Request(swap))
    ensures s.procs[2].committed && s.procs[2].retry == 1 && Current(s) == Outcome(swap)
  {
    hide Exec, PinDir, ConfigOf, Permutation, BuildInput, Components, QsortResult, MergeSort, Outcome, Request;
    var acts1, s1 := Retries(swap);
    var p := s1.procs[2];
    var input := BuildInput(p.phase.oldMp, p);
    RetriedInput(swap, p);
    MergeSortIsQsort(input);
    var acts2, s2 := PreparesAs(acts1, s1, 2, 13, MergeSort(input));
    acts, s := Swaps(acts2, s2, 2);
  }

  function Old(c: Component): Entry {
    Entry(c, true, false)
  }

  function New(c: Component): Entry {
    Entry(c, true, true)
  }

  lemma RetriedInput(swap: bool, p: Proc)
    requires p.op == Attach(Request(swap)) && p.loaded && p.phase.Build? && p.phase.oldMp.Some?
    requires p.phase.oldMp.value.list == [First, Fourth]
    ensures var input := BuildInput(p.phase.oldMp, p); |input| == 6 && Components(MergeSort(input)) == Outcome(swap)
  {
    hide MergeSort;
    var input := BuildInput(p.phase.oldMp, p);
    var req := Request(swap);
    assert input == [Old(First), Old(Fourth), New(req[0]), New(req[1]), New(Fifth), New(Sixth)];
    if swap {
      SortsOtherWay();
    } else {
      SortsOneWay();
    }
  }

  lemma Halves(s: seq<Entry>, a: seq<Entry>, b: seq<Entry>, a': seq<Entry>, b': seq<Entry>)
    requires |s| > 1 && s == a + b && |a| == |s| / 2 && MergeSort(a) == a' && MergeSort(b) == b'
    ensures MergeSort(s) == Merge(a', b')
  {
    assert s[..|s| / 2] == a && s[|s| / 2..] == b;
  }

  lemma {:induction false} MergeBefore(a: seq<Entry>, b: seq<Entry>)
    requires b != [] && forall e | e in a :: Compare(e, b[0]) <= 0
    ensures Merge(a, b) == a + b
  {
    hide Compare;
    if a == [] {
      assert a + b == b;
    } else {
      var tail := a[1..];
      assert forall e | e in tail :: e in a;
      MergeBefore(tail, b);
      assert a[0] in a && Merge(a, b) == [a[0]] + Merge(tail, b);
      assert a + b == [a[0]] + (tail + b);
    }
  }

  lemma MergeBehind(a: seq<Entry>, e: Entry, b: seq<Entry>)
    requires a != [] && Compare(a[0], e) > 0
    ensures Merge(a, [e] + b) == [e] + Merge(a, b)
  {
    hide Compare;
    assert ([e] + b)[1..] == b;
  }

  /** How the six entries compare: First, Second and Third in a cycle, and the others behind them. */
  lemma Comparisons()
    ensures Compare(New(Third), New(Second)) > 0 && Compare(Old(First), New(Third)) > 0
    ensures Compare(Old(First), New(Second)) <= 0 && Compare(Old(First), Old(Fourth)) <= 0
    ensures Compare(Old(Fourth), New(Second)) > 0 && Compare(Old(Fourth), New(Third)) > 0
    ensures forall e | e in {Old(First), New(Second), New(Third), Old(Fourth)} :: Compare(e, New(Fifth)) <= 0
    ensures Compare(New(Fifth), New(Sixth)) <= 0
  {
  }

  lemma SortSwaps(a: Entry, b: Entry)
    requires Compare(a, b) > 0
    ensures MergeSort([a, b]) == [b, a]
  {
    hide Compare;
    Halves([a, b], [a], [b], [a], [b]);
    MergeBehind([a], b, []);
    assert [b] + [] == [b];
  }

  lemma SortKeeps(e: Entry)
    requires e in {New(Second), New(Third)}
    ensures MergeSort([e, New(Fifth), New(Sixth)]) == [e, New(Fifth), New(Sixth)]
  {
    Comparisons();
    hide Compare;
    var v, x := New(Fifth), New(Sixth);
    MergeBefore([v], [x]);
    Halves([v, x], [v], [x], [v], [x]);
    MergeBefore([e], [v, x]);
    Halves([e, v, x], [e], [v, x], [e], [v, x]);
  }

  /** The two halves sorted, and merged. */
  lemma Finishes(a: seq<Entry>, a': seq<Entry>, e: Entry)
    requires |a| == 3 && MergeSort(a) == a' && |a'| == 3 && e in {New(Second), New(Third)} && Compare(a'[0], e) > 0
    requires forall y | y in a' :: y in {Old(First), New(Second), New(Third), Old(Fourth)}
    ensures MergeSort(a + [e, New(Fifth), New(Sixth)]) == [e] + a' + [New(Fifth), New(Sixth)]
  {
    Comparisons();
    hide Compare, MergeSort;
    var v, x := New(Fifth), New(Sixth);
    SortKeeps(e);
    Halves(a + [e, v, x], a, [e, v, x], a', [e, v, x]);
    assert [e, v, x] == [e] + [v, x];
    MergeBehind(a', e, [v, x]);
    MergeBefore(a', [v, x]);
  }

  lemma SortsOneWay()
    ensures MergeSort([Old(First), Old(Fourth), New(Second), New(Third), New(Fifth), New(Sixth)]) ==
            [New(Third), Old(First), New(Second), Old(Fourth), New(Fifth), New(Sixth)]
  {
    Comparisons();
    hide Compare, MergeSort;
    var f, o, w, t := Old(First), Old(Fourth), New(Second), New(Third);
    SortSwaps(o, w);
    SortOne(f);
    Halves([f, o, w], [f], [o, w], [f], [w, o]);
    MergeBefore([f], [w, o]);
    Finishes([f, o, w], [f, w, o], t);
    assert [f, o, w] + [t, New(Fifth), New(Sixth)] == [f, o, w, t, New(Fifth), New(Sixth)];
  }

  lemma SortsOtherWay()
    ensures MergeSort([Old(First), Old(Fourth), New(Third), New(Second), New(Fifth), New(Sixth)]) ==
            [New(Second), New(Third), Old(First), Old(Fourth), New(Fifth), New(Sixth)]
  {
    Comparisons();
    hide Compare, MergeSort;
    var f, o, w, t := Old(First), Old(Fourth), New(Second), New(Third);
    SortSwaps(o, t);
    SortOne(f);
    Halves([f, o, t], [f], [o, t], [f], [t, o]);
    assert [t, o] == [t] + [o];
    MergeBehind([f], t, [o]);
    MergeBefore([f], [o]);
    Finishes([f, o, t], [t, f, o], w);
    assert [f, o, t] + [w, New(Fifth), New(Sixth)] == [f, o, t, w, New(Fifth), New(Sixth)];
  }

  lemma SortOne(e: Entry)
    ensures MergeSort([e]) == [e]
  {
  }

  // The run up to the second attempt

  lemma Retries(swap: bool) returns (acts: seq<Action>, s: State)
    ensures Exec(acts) == Some(s) && 13 !in s.ids && s.attached == Some(12) && 2 in s.procs
    ensures s.procs[2] == Proc(Attach(Request(swap)), 1, true, Build(Some(OldMp(12, false, 2, [First, Fourth], false))), false)
  {
    hide Exec, PinDir, ConfigOf, Permutation, BuildInput, Components;
    var acts1, s1 := BothLook(swap);
    var acts2, s2 := SecondLoses(acts1, s1, Request(swap));
    acts, s := Looks(acts2, s2, 2);
    AttachedIsSorted(acts2);
    TwoInOrder(Current(s2), First, Fourth);
  }

  lemma TwoInOrder(list: seq<Component>, a: Component, b: Component)
    requires Permutation(list, [a, b]) && a.runPrio < b.runPrio
    requires forall i, j | 0 <= i < j < |list| :: RunsBefore(list[i], list[j])
    ensures list == [a, b]
  {
    PermutationLength(list, [a, b]);
    PermutationMember(list, [a, b]);
    assert list[0] in list && list[1] in list && a in [a, b] && b in [a, b];
    assert a in list && b in list;
  }

  lemma BothLook(swap: bool) returns (acts: seq<Action>, s: State)
    ensures Exec(acts) == Some(s) && s.attached == Some(10) && s.ids == {1, 2, 3, 4, 5, 6, 10}
    ensures 2 in s.procs && 3 in s.procs
    ensures var o := Some(OldMp(10, false, 1, [First], false));
            && s.procs[2] == Proc(Attach(Request(swap)), 0, false, Build(o), false)
            && s.procs[3] == Proc(Attach([Fourth]), 0, false, Build(o), false)
  {
    hide Exec, PinDir, ConfigOf, Permutation, BuildInput, Components, WellFormedOp, ReqIds, Request;
    RequestsAreFine();
    RequestIsFine(swap);
    var acts1, s1 := FirstAttach([First]);
    Single(Current(s1), First);
    var acts2, s2 := Starts(acts1, s1, 2, Request(swap));
    var acts3, s3 := Starts(acts2, s2, 3, [Fourth]);
    var acts4, s4 := Looks(acts3, s3, 2);
    acts, s := Looks(acts4, s4, 3);
  }

  lemma RequestsAreFine()
    ensures WellFormedOp(Attach([First])) && ReqIds(Attach([First])) == {1}
    ensures WellFormedOp(Attach([Fourth])) && ReqIds(Attach([Fourth])) == {4}
  {
    assert First in [First] && Fourth in [Fourth];
  }

  lemma RequestIsFine(swap: bool)
    ensures var req := Request(swap); req != [] && WellFormedOp(Attach(req)) && ReqIds(Attach(req)) == {2, 3, 5, 6}
  {
    FourAreFine(Request(swap)[0], Request(swap)[1], Fifth, Sixth);
  }

  lemma FourAreFine(a: Component, b: Component, c: Component, d: Component)
    requires CallerBitsOnly(a) && CallerBitsOnly(b) && CallerBitsOnly(c) && CallerBitsOnly(d)
    requires |{a.prog.id, b.prog.id, c.prog.id, d.prog.id}| == 4
    ensures var req := [a, b, c, d];
            WellFormedOp(Attach(req)) && ReqIds(Attach(req)) == {a.prog.id, b.prog.id, c.prog.id, d.prog.id}
  {
    var req := [a, b, c, d];
    assert forall x | x in req :: x == a || x == b || x == c || x == d;
    assert a == req[0] && b == req[1] && c == req[2] && d == req[3];
  }

  lemma SecondLoses(acts: seq<Action>, s: State, req: seq<Component>) returns (acts': seq<Action>, s': State)
    requires Exec(acts) == Some(s) && s.attached == Some(10) && 11 !in s.ids && 12 !in s.ids && |req| == 4
    requires 2 in s.procs && 3 in s.procs
    requires var o := Some(OldMp(10, false, 1, [First], false));
             && s.procs[2] == Proc(Attach(req), 0, false, Build(o), false)
             && s.procs[3] == Proc(Attach([Fourth]), 0, false, Build(o), false)
    ensures Exec(acts') == Some(s') && s'.attached == Some(12) && Permutation(Current(s'), [First, Fourth])
    ensures s'.ids == s.ids + {11, 12}
    ensures 2 in s'.procs && s'.procs[2] == Proc(Attach(req), 1, true, Query(0, None), false)
  {
    hide Exec, PinDir, ConfigOf, Permutation, BuildInput, Components;
    var o := Some(OldMp(10, false, 1, [First], false));
    InputAfterFirst(o, s.procs[2], req);
    InputAfterFirst(o, s.procs[3], [Fourth]);
    var acts1, s1 := Prepares(acts, s, 2, 11);
    var acts2, s2 := Prepares(acts1, s1, 3, 12);
    var acts3, s3 := Swaps(acts2, s2, 3);
    acts', s' := Loses(acts3, s3, 2);
    assert [First] + [Fourth] == [First, Fourth];
  }

  lemma InputAfterFirst(o: Option<OldMp>, p: Proc, progs: seq<Component>)
    requires o.Some? && o.value.list == [First] && p.op == Attach(progs)
    ensures |BuildInput(o, p)| == 1 + |progs| && Components(BuildInput(o, p)) == [First] + progs
  {
  }
}
