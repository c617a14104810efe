/** An operation that nobody disturbs and all of whose calls work: what it does, and when it cannot. */
module DispatcherAlone {
  import opened Common
  import opened DispatcherOrder
  import opened Dispatcher
  import opened DispatcherGenerate
  import opened DispatcherProtocol
  import opened DispatcherSafety
  import opened DispatcherTheorems

  /** The call works; a list that is too long is not a failing call. */
  ghost predicate Works(p: Proc, c: Choice) {
    || c.Normal? || c.Load?
    || (c.LoadFails? && p.phase.Build? && Wanted(p.phase.oldMp, p.op) > MAX_DISPATCHER_ACTIONS)
  }

  /** Steps of one process, all of which work. */
  ghost predicate Alone(base: seq<Action>, more: seq<Action>, pid: nat)
    decreases |more|
  {
    more == [] ||
    (var init, a := more[..|more| - 1], more[|more| - 1];
     && Alone(base, init, pid) && a.Act? && a.pid == pid
     && Exec(base + init).Some? && pid in Exec(base + init).value.procs
     && Works(Exec(base + init).value.procs[pid], a.choice))
  }

  // ---------------------------------------------------------------------------
  // What the operation should do

  ghost predicate Loaded(list: seq<Component>, id: nat) {
    exists c :: c in list && c.prog.id == id
  }

  /** The id at this place is the first that cannot be detached. */
  ghost predicate FirstBad(ids: seq<nat>, list: seq<Component>, i: nat) {
    && i < |ids| && (ids[i] == 0 || !Loaded(list, ids[i]))
    && forall k | 0 <= k < i :: ids[k] != 0 && Loaded(list, ids[k])
  }

  /** The result for an operation on an interface with these programs. */
  ghost predicate Reports(list: seq<Component>, op: Op, r: Option<Errno>) {
    match op
    case Attach(progs) =>
      r == if progs == [] then Some(EINVAL) else if |list| + |progs| > 10 then Some(E2BIG) else None
    case Detach(ids) =>
      if ids == [] then r == Some(EINVAL)
      else if list == [] then r == Some(ENOENT)
      else if r == None then forall i | 0 <= i < |ids| :: ids[i] != 0 && Loaded(list, ids[i])
      else exists i: nat :: FirstBad(ids, list, i) && r == Some(if ids[i] == 0 then EINVAL else ENOENT)
  }

  /** What a read finds when nobody is in the way. */
  ghost function Found(s: State): Option<OldMp> {
    if s.attached.None? then None else Some(OldMp(s.attached.value, false, |Current(s)|, Current(s), false))
  }

  /** Nothing has changed on the interface. */
  ghost predicate Untouched(s0: State, s: State) {
    s.attached == s0.attached && s.history == s0.history && Current(s) == Current(s0)
  }

  /** The operation is done, once. */
  ghost predicate Applied(s0: State, op: Op, s: State) {
    && |s.history| == |s0.history| + 1
    && Permutation(Current(s), Apply(Current(s0), op))
  }

  /** How far the operation has got. */
  ghost predicate Progress(s0: State, pid: nat, op: Op, s: State) {
    && pid in s.procs && s.procs[pid].op == op
    && var p := s.procs[pid];
       match p.phase
       case Query(inner, id) => Untouched(s0, s) && inner == 0 && id.None?
       case GetFd(_, id) => Untouched(s0, s) && s0.attached == Some(id)
       case ReadPins(id) => Untouched(s0, s) && s0.attached == Some(id)
       case Build(o) => Untouched(s0, s) && o == Found(s0) && (op.Detach? ==> Reports(Current(s0), op, None))
       case PinNew(o, _) => Untouched(s0, s) && o == Found(s0) && Reports(Current(s0), op, None)
       case Swap(o, _) => Untouched(s0, s) && o == Found(s0) && Reports(Current(s0), op, None)
       case UnpinOld(_, _) => Applied(s0, op, s) && Reports(Current(s0), op, None)
       case Done(r) => Reports(Current(s0), op, r) && if r.None? then Applied(s0, op, s) else Untouched(s0, s)
       case UnpinNew(_, _) => false
       case Astray => false
  }

  // ---------------------------------------------------------------------------
  // Step by step

  lemma {:induction false} CheckReports(ids: seq<nat>, list: seq<Component>)
    ensures var r := DetachCheck(ids, list);
            && (r.None? <==> forall i | 0 <= i < |ids| :: ids[i] != 0 && Loaded(list, ids[i]))
            && (r.Some? ==> exists i: nat :: FirstBad(ids, list, i) && r == Some(if ids[i] == 0 then EINVAL else ENOENT))
  {
    if ids != [] {
      CheckReports(ids[1..], list);
      assert forall i | 0 < i < |ids| :: ids[i] == ids[1..][i - 1];
      if ids[0] == 0 || !Loaded(list, ids[0]) {
        assert FirstBad(ids, list, 0);
      } else {
        var r := DetachCheck(ids[1..], list);
        if r.Some? {
          var i: nat :| FirstBad(ids[1..], list, i) && r == Some(if ids[1..][i] == 0 then EINVAL else ENOENT);
          assert FirstBad(ids, list, i + 1);
        } else {
          assert forall i | 0 <= i < |ids| - 1 :: ids[1..][i] == ids[i + 1];
        }
      }
    }
  }

  /** The read finds the attached programs, and the operation goes where it should. */
  lemma AfterFinding(s0: State, pid: nat, op: Op, s: State, p: Proc, s': State)
    requires Untouched(s0, s) && p.op == op && (op.Attach? ==> op.progs != []) && (op.Detach? ==> op.ids != [])
    requires s0.attached.Some? ==> Current(s0) != []
    requires pid in s.procs && s' == With(s, pid, AfterRead(p, Found(s0)))
    ensures Progress(s0, pid, op, s')
  {
    assert s'.attached == s.attached && Current(s') == Current(s);
    if op.Detach? {
      CheckReports(op.ids, Current(s0));
      hide DetachCheck, FirstBad, Loaded, Current;
    }
  }

  lemma AttachedNonempty(s: State)
    requires AttachedOK(s) && DispsOK(s)
    ensures s.attached.Some? ==> Current(s) != []
    ensures s.attached.None? ==> Current(s) == []
  {
    hide PinDir;
    if s.attached.Some? {
      assert DispOK(s.disp[s.attached.value]);
    }
  }

  lemma ReadStep(s0: State, pid: nat, op: Op, s: State, c: Choice, s': State)
    requires Inv(s) && Progress(s0, pid, op, s) && Works(s.procs[pid], c) && Step(s, Act(pid, c)) == Some(s')
    requires var ph := s.procs[pid].phase; ph.Query? || ph.GetFd? || ph.ReadPins?
    ensures Progress(s0, pid, op, s')
  {
    hide IdsOK, RequestsPrivate, CreatorsOK, HistoryOK, DetachedOK, WellFormedOp, AfterRead, ReadBack, LinkedCount, IsRest, PinDir,
      Reports, PhaseOK, DispOK, ConfigShape;
    var p := s.procs[pid];
    assert ProcOK(s, pid, p);
    AttachedNonempty(s);
    if p.phase.ReadPins? {
      assert EverAttached(s, p.phase.id);
      ReadGivesLinks(s, p.phase.id);
      AfterFinding(s0, pid, op, s, p, s');
    } else if p.phase.Query? && s.attached.None? {
      AfterFinding(s0, pid, op, s, p, s');
    } else {
      assert Current(s') == Current(s);
    }
  }

  lemma LoadReports(s0: State, op: Op, p: Proc)
    requires DispsOK(s0) && AttachedOK(s0) && p.op == op && (op.Attach? ==> op.progs != [])
    requires op.Detach? ==> Reports(Current(s0), op, None)
    ensures |BuildInput(Found(s0), p)| <= MAX_DISPATCHER_ACTIONS ==> Reports(Current(s0), op, None)
    ensures Wanted(Found(s0), op) > MAX_DISPATCHER_ACTIONS ==> op.Attach? && Reports(Current(s0), op, Some(E2BIG))
    ensures CountExact(Found(s0))
  {
    hide PinDir, FirstBad, Loaded;
    if s0.attached.Some? {
      assert DispOK(s0.disp[s0.attached.value]);
    }
  }

  lemma BuildStepAlone(s0: State, pid: nat, op: Op, s: State, c: Choice, s': State)
    requires Inv(s) && Progress(s0, pid, op, s) && Works(s.procs[pid], c) && Step(s, Act(pid, c)) == Some(s')
    requires s.procs[pid].phase.Build?
    ensures Progress(s0, pid, op, s')
  {
    hide IdsOK, RequestsPrivate, CreatorsOK, HistoryOK, DetachedOK, PinsOK, WellFormedOp, Reports, PhaseOK, DispOK, BuildInput,
      QsortResult, Components, ConfigOf, PinDir, Again;
    var p := s.procs[pid];
    assert ProcOK(s, pid, p);
    assert Found(s) == Found(s0);
    LoadReports(s, op, p);
    assert Current(s') == Current(s);
  }

  lemma SwapStepAlone(s0: State, pid: nat, op: Op, s: State, c: Choice, s': State)
    requires Inv(s) && Progress(s0, pid, op, s) && Works(s.procs[pid], c) && Step(s, Act(pid, c)) == Some(s')
    requires s.procs[pid].phase.Swap?
    ensures Progress(s0, pid, op, s')
  {
    hide RequestsPrivate, CreatorsOK, HistoryOK, DetachedOK, PinsOK, WellFormedOp, Reports, Apply, AttachedOK, DispsOK, IdsOK;
    var p := s.procs[pid];
    assert ProcOK(s, pid, p);
    var o, nd := p.phase.oldMp, p.phase.newDisp;
    CommitFaithful(s, pid, p, o, nd);
    CommittedList(s, pid, p, o, nd);
    hide PhaseOK, Current, LinksOf;
    assert s' == DoCommit(s, pid, p, o, nd);
  }

  lemma PinStepAlone(s0: State, pid: nat, op: Op, s: State, c: Choice, s': State)
    requires Progress(s0, pid, op, s) && Works(s.procs[pid], c) && Step(s, Act(pid, c)) == Some(s')
    requires s.procs[pid].phase.PinNew? || s.procs[pid].phase.UnpinOld?
    ensures Progress(s0, pid, op, s')
  {
    hide Reports, PinDir, Part, LeftOver, Trim, Apply;
    assert Current(s') == Current(s);
  }

  lemma StepAlone(s0: State, pid: nat, op: Op, s: State, c: Choice, s': State)
    requires Inv(s) && Progress(s0, pid, op, s) && Works(s.procs[pid], c) && Step(s, Act(pid, c)) == Some(s')
    ensures Progress(s0, pid, op, s')
  {
    hide Inv, Untouched, Reports, Applied, Works;
    var ph := s.procs[pid].phase;
    if ph.Query? || ph.GetFd? || ph.ReadPins? {
      ReadStep(s0, pid, op, s, c, s');
    } else if ph.Build? {
      BuildStepAlone(s0, pid, op, s, c, s');
    } else if ph.Swap? {
      SwapStepAlone(s0, pid, op, s, c, s');
    } else if ph.PinNew? || ph.UnpinOld? {
      PinStepAlone(s0, pid, op, s, c, s');
    }
  }

  lemma StartAlone(s0: State, pid: nat, op: Op, s: State)
    requires Step(s0, Start(pid, op)) == Some(s)
    ensures Progress(s0, pid, op, s)
  {
    hide WellFormedOp, ReqIds, FirstBad, Loaded;
    assert Current(s) == Current(s0);
  }

  lemma {:induction false} RunAlone(acts: seq<Action>, pid: nat, op: Op, more: seq<Action>)
    requires Exec(acts).Some? && Exec(acts + [Start(pid, op)]).Some?
    requires Alone(acts + [Start(pid, op)], more, pid) && Exec(acts + [Start(pid, op)] + more).Some?
    ensures Progress(Exec(acts).value, pid, op, Exec(acts + [Start(pid, op)] + more).value)
    decreases |more|
  {
    hide Step, Progress, Inv;
    var base := acts + [Start(pid, op)];
    if more == [] {
      assert base + more == base && base[..|acts|] == acts;
      StartAlone(Exec(acts).value, pid, op, Exec(base).value);
    } else {
      var init, a := more[..|more| - 1], more[|more| - 1];
      assert (base + more)[..|base + more| - 1] == base + init;
      RunAlone(acts, pid, op, init);
      ReachableInv(base + init);
      StepAlone(Exec(acts).value, pid, op, Exec(base + init).value, a.choice, Exec(base + more).value);
    }
  }

  /** In every run: an operation that nobody disturbs and all of whose calls work is applied to the attached
      programs, once, and succeeds; or it reports why it cannot be, and changes nothing. */
  lemma UndisturbedDoesIt(acts: seq<Action>, pid: nat, op: Op, more: seq<Action>)
    requires Exec(acts).Some? && Exec(acts + [Start(pid, op)]).Some?
    requires Alone(acts + [Start(pid, op)], more, pid) && Exec(acts + [Start(pid, op)] + more).Some?
    requires Ended(Exec(acts + [Start(pid, op)] + more).value.procs[pid].phase)
    ensures var s0, s := Exec(acts).value, Exec(acts + [Start(pid, op)] + more).value;
            && s.procs[pid].phase.Done? && Reports(Current(s0), op, s.procs[pid].phase.result)
            && if s.procs[pid].phase.result.None? then Applied(s0, op, s) else Untouched(s0, s)
  {
    hide Exec, Reports, Untouched, Applied, Alone;
    RunAlone(acts, pid, op, more);
  }

  // ---------------------------------------------------------------------------
  // It gets there

  lemma UnusedId(ids: set<nat>) returns (d: nat)
    ensures d !in ids
  {
    d := 0;
    var rest := ids;
    while d in ids
      invariant rest <= ids && (forall i | i in ids :: i >= d ==> i in rest) && (forall i | i in rest :: i >= d)
      decreases |rest|
    {
      rest := rest - {d};
      d := d + 1;
    }
  }

  lemma WorkingStep(s0: State, pid: nat, op: Op, s: State) returns (c: Choice)
    requires Inv(s) && Progress(s0, pid, op, s) && !Ended(s.procs[pid].phase)
    ensures Works(s.procs[pid], c) && Step(s, Act(pid, c)).Some?
  {
    hide IdsOK, RequestsPrivate, CreatorsOK, HistoryOK, DetachedOK, PinsOK, WellFormedOp, Reports, BuildInput, QsortResult,
      MergeSort, Components, PinDir, Again, Applied;
    var p := s.procs[pid];
    assert ProcOK(s, pid, p);
    c := Normal;
    if p.phase.Build? {
      var input := BuildInput(p.phase.oldMp, p);
      LoadReports(s, op, p);
      if Wanted(p.phase.oldMp, op) > MAX_DISPATCHER_ACTIONS {
        c := LoadFails(OtherErr);
      } else {
        var d := UnusedId(s.ids);
        MergeSortIsQsort(input);
        InputSize(s, pid, p);
        c := Load(d, MergeSort(input));
      }
    } else if p.phase.ReadPins? {
      assert DispOK(s.disp[p.phase.id]);
    }
  }

  lemma InputSize(s: State, pid: nat, p: Proc)
    requires DispsOK(s) && ProcOK(s, pid, p) && p.phase.Build? && CountExact(p.phase.oldMp)
    ensures |BuildInput(p.phase.oldMp, p)| == Wanted(p.phase.oldMp, p.op)
  {
    hide WellFormedOp, DispOK, IdSet, IdsOf, DistinctIds, Without;
    if p.op.Detach? {
      var o := p.phase.oldMp.value;
      LinksAreDistinct(s.disp[o.id]);
      DetachSize(p.op.ids, o.list);
    }
  }

  /** From wherever it has got, an undisturbed operation can go on to its end. */
  lemma Finishes(acts: seq<Action>, pid: nat, op: Op, sofar: seq<Action>) returns (more: seq<Action>)
    requires Exec(acts).Some? && Exec(acts + [Start(pid, op)]).Some?
    requires Alone(acts + [Start(pid, op)], sofar, pid) && Exec(acts + [Start(pid, op)] + sofar).Some?
    ensures Alone(acts + [Start(pid, op)], more, pid) && Exec(acts + [Start(pid, op)] + more).Some?
    ensures var s := Exec(acts + [Start(pid, op)] + more).value; pid in s.procs && Ended(s.procs[pid].phase)
    decreases 319 - StepsOf(acts + [Start(pid, op)] + sofar, pid)
  {
    hide Step, Inv, Progress, Works;
    var base := acts + [Start(pid, op)];
    var s := Exec(base + sofar).value;
    RunAlone(acts, pid, op, sofar);
    ReachableInv(base + sofar);
    assert pid in s.procs by {
      InProgress(Exec(acts).value, pid, op, s);
    }
    BoundedRetry(base + sofar, pid);
    more := sofar;
    if !Ended(s.procs[pid].phase) {
      var c := WorkingStep(Exec(acts).value, pid, op, s);
      var next := sofar + [Act(pid, c)];
      assert next[..|sofar|] == sofar;
      assert (base + next)[..|base + sofar|] == base + sofar && (base + next)[|base + sofar|] == Act(pid, c);
      assert Alone(base, next, pid);
      assert StepsOf(base + next, pid) == StepsOf(base + sofar, pid) + 1;
      more := Finishes(acts, pid, op, next);
    }
  }

  lemma InProgress(s0: State, pid: nat, op: Op, s: State)
    requires Progress(s0, pid, op, s)
    ensures pid in s.procs
  {
  }

  /** There is such a run for every operation that can be started. */
  lemma UndisturbedFinishes(acts: seq<Action>, pid: nat, op: Op) returns (more: seq<Action>)
    requires Exec(acts).Some? && Exec(acts + [Start(pid, op)]).Some?
    ensures Alone(acts + [Start(pid, op)], more, pid) && Exec(acts + [Start(pid, op)] + more).Some?
    ensures var s := Exec(acts + [Start(pid, op)] + more).value; pid in s.procs && Ended(s.procs[pid].phase)
  {
    assert acts + [Start(pid, op)] + [] == acts + [Start(pid, op)];
    hide Exec;
    more := Finishes(acts, pid, op, []);
  }
}
