/** The promises of the dispatcher protocol, for every run of any number of processes. */
module DispatcherTheorems {
  import opened Common
  import opened DispatcherOrder
  import opened Dispatcher
  import opened DispatcherGenerate
  import opened DispatcherProtocol
  import opened DispatcherSafety
  import opened DispatcherFold

  /** The operation takes no more steps. */
  predicate Ended(ph: Phase) {
    ph.Done? || ph.Astray?
  }

  /** What the others do leaves a process where it is. */
  lemma {:induction false} OthersKeep(acts: seq<Action>, more: seq<Action>, pid: nat)
    requires Exec(acts).Some? && pid in Exec(acts).value.procs && Exec(acts + more).Some?
    requires forall a | a in more :: a.pid != pid
    ensures pid in Exec(acts + more).value.procs && Exec(acts + more).value.procs[pid] == Exec(acts).value.procs[pid]
    decreases |more|
  {
    hide Step;
    if more == [] {
      assert acts + more == acts;
    } else {
      var init, a := more[..|more| - 1], more[|more| - 1];
      assert (acts + more)[..|acts + more| - 1] == acts + init;
      OthersKeep(acts, init, pid);
      assert a in more;
      assert Moves(Exec(acts + init).value, a.pid, Step(Exec(acts + init).value, a));
    }
  }

  /** What a step can make of the process that takes it. */
  ghost predicate Transition(s: State, p: Proc, c: Choice, p': Proc) {
    match p.phase
    case Query(inner, _) => (p'.phase.GetFd? && p' == At(p, GetFd(inner, p'.phase.id))) || p' == AfterRead(p, None)
    case GetFd(inner, id) =>
      || p' == At(p, ReadPins(id)) || p' == AfterRead(p, None)
      || (inner + 1 <= MAX_RETRY && p' == At(p, Query(inner + 1, Some(id))))
    case ReadPins(_) => exists o: OldMp :: p' == AfterRead(p, Some(o)) && (o.fault <==> c.PinsUnreadable?)
    case Build(o) =>
      || (p'.phase.PinNew? && p' == p.(phase := PinNew(o, p'.phase.d), loaded := true))
      || (p' == At(p, Astray) && !CountExact(o))
      || (exists err :: p' == AfterError(p, err))
    case PinNew(o, d) => p' == At(p, Swap(o, Some(d))) || (exists err :: p' == AfterError(p, err))
    case Swap(o, nd) =>
      || (&& c.Normal? && s.attached == Expected(o)
          && p' == p.(phase := if o.Some? then UnpinOld(o.value, nd.None?) else Done(None), committed := true))
      || (exists err :: p' == AfterFailedSwap(p, nd, err))
    case UnpinNew(_, err) => p' == if err == EAGAIN then AfterAgain(p) else At(p, Done(Some(err)))
    case UnpinOld(_, full) =>
      p' == At(p, Done(None)) || (full && c.UnpinFails? && CallError(c.err) && p' == AfterError(p, c.err))
    case Done(_) => false
    case Astray => false
  }

  lemma ReadTransition(s: State, pid: nat, p: Proc, c: Choice, s': State)
    requires p.phase.ReadPins? && StepReadPins(s, pid, p, c) == Some(s')
    ensures Transition(s, p, c, s'.procs[pid])
  {
    hide ReadBack, LinkedCount, AfterRead, ConfigShape;
    var id := p.phase.id;
    var config := s.disp[id].mp.config;
    if c.PinsUnreadable? {
      assert s'.procs[pid] == AfterRead(p, Some(OldMp(id, true, c.after, [], true)));
    } else {
      var r, n := ReadBack(s.pins, id, config), LinkedCount(s.pins, id, config);
      var o := if r.Some? then OldMp(id, false, n, r.value, false) else OldMp(id, true, n, [], false);
      assert s'.procs[pid] == AfterRead(p, Some(o));
    }
  }

  lemma BuildTransition(s: State, pid: nat, p: Proc, c: Choice, s': State)
    requires p.phase.Build? && StepBuild(s, pid, p, c) == Some(s')
    ensures Transition(s, p, c, s'.procs[pid])
  {
    hide BuildInput, QsortResult, Components, ConfigOf, Wanted, CountExact, AfterError;
    if c.LoadFails? {
      var err := if Wanted(p.phase.oldMp, p.op) > MAX_DISPATCHER_ACTIONS then E2BIG else c.err;
      assert s'.procs[pid] == AfterError(p, err);
    }
  }

  lemma PinTransition(s: State, pid: nat, p: Proc, c: Choice, s': State)
    requires p.phase.PinNew? && StepPinNew(s, pid, p, c) == Some(s')
    ensures Transition(s, p, c, s'.procs[pid])
  {
    hide PinDir, Part, LeftOver, AfterError;
    if !c.Normal? {
      assert s'.procs[pid] == AfterError(p, c.err);
    }
  }

  lemma SwapTransition(s: State, pid: nat, p: Proc, c: Choice, s': State)
    requires p.phase.Swap? && StepSwap(s, pid, p, c) == Some(s')
    ensures Transition(s, p, c, s'.procs[pid])
  {
    hide AfterFailedSwap, Current, LinksOf;
    var err := if c.Normal? then EAGAIN else c.err;
    assert (c.Normal? && s.attached == Expected(p.phase.oldMp)) ||
           s'.procs[pid] == AfterFailedSwap(p, p.phase.newDisp, err);
  }

  lemma StepTransition(s: State, pid: nat, c: Choice, s': State)
    requires Step(s, Act(pid, c)) == Some(s')
    ensures pid in s.procs && pid in s'.procs && Transition(s, s.procs[pid], c, s'.procs[pid])
  {
    hide AfterRead, AfterAgain, AfterError, StepReadPins, StepBuild, StepPinNew, StepSwap, PinDir, Trim;
    var p := s.procs[pid];
    if p.phase.ReadPins? {
      ReadTransition(s, pid, p, c, s');
    } else if p.phase.Build? {
      BuildTransition(s, pid, p, c, s');
    } else if p.phase.PinNew? {
      PinTransition(s, pid, p, c, s');
    } else if p.phase.Swap? {
      SwapTransition(s, pid, p, c, s');
    }
  }

  // ---------------------------------------------------------------------------
  // Commits and reads

  ghost predicate OldWithoutFault(p: Proc) {
    match p.phase
    case Build(o) => o.Some? ==> !o.value.fault
    case PinNew(o, _) => o.Some? ==> !o.value.fault
    case Swap(o, _) => o.Some? ==> !o.value.fault
    case _ => true
  }

  ghost predicate WithoutFault(s: State) {
    && (forall pid | pid in s.procs :: OldWithoutFault(s.procs[pid]))
    && (forall i | 0 <= i < |s.history| :: !s.history[i].fault)
  }

  lemma AfterReadWithoutFault(p: Proc, o: Option<OldMp>)
    requires o.Some? ==> !o.value.fault
    ensures OldWithoutFault(AfterRead(p, o))
  {
  }

  lemma OwnOldWithoutFault(s: State, p: Proc, c: Choice, p': Proc)
    requires Transition(s, p, c, p') && OldWithoutFault(p) && !c.PinsUnreadable?
    ensures OldWithoutFault(p')
  {
    hide AfterRead;
    if p.phase.ReadPins? {
      var o: OldMp :| p' == AfterRead(p, Some(o)) && !o.fault;
      AfterReadWithoutFault(p, Some(o));
    } else {
      AfterReadWithoutFault(p, None);
    }
  }

  lemma StepHistory(s: State, a: Action, s': State)
    requires Step(s, a) == Some(s')
    ensures s'.history == s.history ||
            (&& a.Act? && a.pid in s.procs && s.procs[a.pid].phase.Swap?
             && var o := s.procs[a.pid].phase.oldMp;
                exists c: Commit :: s'.history == s.history + [c] && c.pid == a.pid && c.fault == (o.Some? && o.value.fault))
  {
    hide QsortResult, BuildInput, WellFormedOp, ReadBack, DetachCheck, PinDir, AfterRead, AfterFailedSwap, AfterAgain, ReqIds;
    if a.Act? && s.procs[a.pid].phase.Swap? && s'.history != s.history {
      var c := s'.history[|s.history|];
      assert s'.history == s.history + [c];
    }
  }

  lemma StartPhase(s: State, a: Action, s': State)
    requires a.Start? && Step(s, a) == Some(s')
    ensures a.pid !in s.procs && a.pid in s'.procs && !s'.procs[a.pid].committed
    ensures var ph := s'.procs[a.pid].phase; ph == Query(0, None) || ph == Done(Some(EINVAL))
  {
  }

  lemma StepWithoutFault(s: State, a: Action, s': State)
    requires WithoutFault(s) && Step(s, a) == Some(s')
    requires a.Act? ==> !a.choice.PinsUnreadable?
    ensures WithoutFault(s')
  {
    hide Step;
    assert Moves(s, a.pid, Step(s, a));
    if a.Act? {
      StepTransition(s, a.pid, a.choice, s');
      OwnOldWithoutFault(s, s.procs[a.pid], a.choice, s'.procs[a.pid]);
    } else {
      StartPhase(s, a, s');
    }
    StepHistory(s, a, s');
  }

  lemma {:induction false} RunWithoutFault(acts: seq<Action>)
    requires Exec(acts).Some?
    requires forall a | a in acts :: a.Act? ==> !a.choice.PinsUnreadable?
    ensures WithoutFault(Exec(acts).value)
  {
    if acts != [] {
      var before := acts[..|acts| - 1];
      RunWithoutFault(before);
      assert acts[|acts| - 1] in acts;
      StepWithoutFault(Exec(before).value, acts[|acts| - 1], Exec(acts).value);
    }
  }

  /** Without a read that fails although the pins are there, nothing is lost. */
  lemma HonestReadsLoseNothing(acts: seq<Action>)
    requires Exec(acts).Some?
    requires forall a | a in acts :: a.Act? ==> !a.choice.PinsUnreadable?
    ensures var s := Exec(acts).value; Permutation(Current(s), Fold(s.history))
  {
    hide Fold;
    RunWithoutFault(acts);
    NoLostUpdate(acts);
  }

  /** Commit by commit and without any assumption on the run: a swap applies its
      operation to the list on the interface exactly when it does not rest on a read
      that failed although the pins were there. */
  lemma SwapAppliesIffReadIsHonest(acts: seq<Action>, i: nat)
    requires Exec(acts).Some? && i < |Exec(acts).value.history|
    ensures var c := Exec(acts).value.history[i];
            Permutation(c.after, Apply(c.before, c.op)) <==> !c.fault
  {
    ReachableInv(acts);
    assert Faithful(Exec(acts).value.history[i]) <==> !Exec(acts).value.history[i].fault;
  }

  /** The attempt rests on a read that found the pins of the dispatcher gone. */
  ghost predicate ReadVanished(p: Proc) {
    (p.phase.Build? || p.phase.PinNew? || p.phase.Swap?) &&
    p.phase.oldMp.Some? && p.phase.oldMp.value.legacy && !p.phase.oldMp.value.fault
  }

  /** In the attempt with this retry count nothing was committed, nor will be. */
  ghost predicate Doomed(p: Proc, retry: nat) {
    p.retry > retry ||
    (p.retry == retry && !p.committed &&
     (ReadVanished(p) || p.phase.UnpinNew? || p.phase.Astray? || (p.phase.Done? && p.phase.result.Some?)))
  }

  lemma DoomedStep(s: State, pid: nat, p: Proc, c: Choice, p': Proc, retry: nat)
    requires AttachedOK(s) && ProcOK(s, pid, p) && Doomed(p, retry) && Transition(s, p, c, p')
    ensures Doomed(p', retry)
  {
    hide WellFormedOp, DetachCheck, PinDir, BuiltFor, RemovesAttached;
  }

  lemma {:induction false} DoomedRun(acts: seq<Action>, more: seq<Action>, pid: nat, retry: nat)
    requires Exec(acts).Some? && pid in Exec(acts).value.procs && Doomed(Exec(acts).value.procs[pid], retry)
    requires Exec(acts + more).Some?
    ensures pid in Exec(acts + more).value.procs && Doomed(Exec(acts + more).value.procs[pid], retry)
    decreases |more|
  {
    hide Step, Doomed, AttachedOK, ProcOK, Transition;
    if more == [] {
      assert acts + more == acts;
    } else {
      var init, a := more[..|more| - 1], more[|more| - 1];
      assert (acts + more)[..|acts + more| - 1] == acts + init;
      DoomedRun(acts, init, pid, retry);
      var s := Exec(acts + init).value;
      assert Moves(s, a.pid, Step(s, a));
      if a.pid == pid {
        var s' := Exec(acts + more).value;
        InvGives(acts + init, pid);
        StartOnce(s, a);
        StepTransition(s, pid, a.choice, s');
        DoomedStep(s, pid, s.procs[pid], a.choice, s'.procs[pid], retry);
      }
    }
  }

  lemma InvGives(acts: seq<Action>, pid: nat)
    requires Exec(acts).Some? && pid in Exec(acts).value.procs
    ensures var s := Exec(acts).value; AttachedOK(s) && DispsOK(s) && ProcOK(s, pid, s.procs[pid])
  {
    hide Exec, AttachedOK, DispsOK, IdsOK, RequestsPrivate, CreatorsOK, PinsOK, HistoryOK, ProcOK;
    ReachableInv(acts);
  }

  lemma NotYetCommitted(s: State, pid: nat, p: Proc)
    requires ProcOK(s, pid, p) && !p.phase.Query? && !p.phase.GetFd? && !p.phase.ReadPins? && !p.phase.UnpinOld? && !p.phase.Done?
    ensures !p.committed
  {
    hide WellFormedOp, PhaseOK, RemovesAttached;
  }

  lemma CommitsCounted(acts: seq<Action>, pid: nat)
    requires Exec(acts).Some? && pid in Exec(acts).value.procs
    ensures var s := Exec(acts).value; CommitsBy(s.history, pid) == if s.procs[pid].committed then 1 else 0
  {
    hide Exec, AttachedOK, DispsOK, IdsOK, RequestsPrivate, CreatorsOK, PinsOK, ProcOK, DetachedOK, CommitsBy;
    ReachableInv(acts);
  }

  lemma StartOnce(s: State, a: Action)
    requires Step(s, a).Some? && a.pid in s.procs
    ensures a.Act?
  {
  }

  /** An attempt that found the pin directory gone, and so took the dispatcher for a legacy
      program, never changes the interface, however the run goes on. */
  lemma VanishedReadNeverCommits(acts: seq<Action>, more: seq<Action>, pid: nat)
    requires Exec(acts).Some? && pid in Exec(acts).value.procs && ReadVanished(Exec(acts).value.procs[pid])
    requires Exec(acts + more).Some?
    ensures var p, s' := Exec(acts).value.procs[pid], Exec(acts + more).value;
            && pid in s'.procs
            && (s'.procs[pid].retry == p.retry ==> CommitsBy(s'.history, pid) == 0)
  {
    hide Exec, ProcOK, CommitsBy, AttachedOK, DispsOK;
    var s := Exec(acts).value;
    var p := s.procs[pid];
    InvGives(acts, pid);
    assert !p.committed by {
      NotYetCommitted(s, pid, p);
    }
    DoomedRun(acts, more, pid, p.retry);
    CommitsCounted(acts + more, pid);
  }

  // ---------------------------------------------------------------------------
  // Pin before attach, unpin after detach

  /** Whatever is attached can be read back in full: every link and program is pinned,
      and a reader finds the programs, order, priorities and chain-call bits of the
      last commit. */
  lemma AttachedIsPinned(acts: seq<Action>)
    requires Exec(acts).Some? && Exec(acts).value.attached.Some?
    ensures var s := Exec(acts).value; var d := s.attached.value;
            && s.history != []
            && d in s.disp && ConfigShape(s.disp[d].mp.config) && d in s.pins
            && (forall name: PinName :: name in s.pins[d] <==> name.slot < |Current(s)|)
            && ReadBack(s.pins, d, s.disp[d].mp.config) == Some(s.history[|s.history| - 1].after)
  {
    ReachableInv(acts);
    var s := Exec(acts).value;
    var d := s.attached.value;
    ReadGivesLinks(s, d);
    PinDirKeys(s.disp[d].mp.links);
    assert DispOK(s.disp[d]);
  }

  /** In every reachable state the attached programs run in order of priority and name. */
  lemma AttachedIsSorted(acts: seq<Action>)
    requires Exec(acts).Some?
    ensures var list := Current(Exec(acts).value); forall i, j | 0 <= i < j < |list| :: RunsBefore(list[i], list[j])
  {
    hide Exec, IdsOK, RequestsPrivate, CreatorsOK, PinsOK, HistoryOK, DetachedOK, ProcOK, RunsBefore;
    ReachableInv(acts);
    var s := Exec(acts).value;
    if s.attached.Some? {
      assert DispOK(s.disp[s.attached.value]);
    }
  }

  /** They are also in the order of the whole comparison if they were put there by a detach or by the
      first attempt of an attach, or if the list sorted by a later attempt has no crossing. */
  lemma AttachedTiesSorted(acts: seq<Action>)
    requires Exec(acts).Some? && Exec(acts).value.attached.Some?
    ensures var s := Exec(acts).value; var d := s.attached.value;
            && d in s.disp && s.disp[d].creator in s.procs && Components(s.disp[d].order) == Current(s)
            && var p := s.procs[s.disp[d].creator];
               p.op.Detach? || p.retry == 0 || NoCrossing(s.disp[d].input) ==>
                 var order := s.disp[d].order; forall i, j | 0 <= i < j < |order| :: !Precedes(order[j], order[i])
  {
    hide Exec, IdsOK, RequestsPrivate, PinsOK, HistoryOK, DetachedOK, ProcOK, NoCrossing, Compare;
    ReachableInv(acts);
    var s := Exec(acts).value;
    var d := s.attached.value;
    assert DispOK(s.disp[d]);
    ConsistentIffNoCrossing(s.disp[d].input);
    if Sorted(s.disp[d].order) {
      NothingPrecedes(s.disp[d].order);
    }
  }

  /** Once a detach has committed, its programs are not attached again. */
  lemma DetachedStaysOff(acts: seq<Action>, pid: nat, id: nat)
    requires Exec(acts).Some? && pid in Exec(acts).value.procs
    requires var p := Exec(acts).value.procs[pid]; p.committed && p.op.Detach? && id in p.op.ids
    ensures forall c | c in Current(Exec(acts).value) :: c.prog.id != id
  {
    hide Exec, AttachedOK, DispsOK, IdsOK, RequestsPrivate, CreatorsOK, PinsOK, HistoryOK, ProcOK, ReqIds, Current;
    ReachableInv(acts);
    var s := Exec(acts).value;
    assert GoneFor(s, s.procs[pid].op.ids);
    assert id in IdsOf(s.procs[pid].op.ids);
    assert forall c | c in Current(s) :: c.prog.id in IdSet(Current(s));
  }

  /** This step is a removal of the pins of d by its creator that does not go through: after a swap that
      failed, or in the clean-up of a pin that failed. */
  ghost predicate RemovalFailsAt(s: Option<State>, a: Action, d: nat) {
    && s.Some? && a.Act? && a.pid in s.value.procs
    && var ph := s.value.procs[a.pid].phase;
       || (a.choice.UnpinFails? && ph.UnpinNew? && ph.d == d)
       || (a.choice.PinFails? && ph.PinNew? && ph.d == d)
  }

  ghost predicate RemovalFailed(acts: seq<Action>, d: nat) {
    acts != [] && (RemovalFailed(acts[..|acts| - 1], d) || RemovalFailsAt(Exec(acts[..|acts| - 1]), acts[|acts| - 1], d))
  }

  lemma StepAbandons(s: State, a: Action, s': State, d: nat)
    requires Step(s, a) == Some(s')
    ensures d in s'.abandoned <==> d in s.abandoned || RemovalFailsAt(Some(s), a, d)
  {
    hide QsortResult, BuildInput, WellFormedOp, ReadBack, LinkedCount, DetachCheck, PinDir, Trim, ReqIds, Components, ConfigOf;
  }

  lemma {:induction false} AbandonedIffRemovalFailed(acts: seq<Action>, d: nat)
    requires Exec(acts).Some?
    ensures d in Exec(acts).value.abandoned <==> RemovalFailed(acts, d)
  {
    hide Step;
    if acts != [] {
      AbandonedIffRemovalFailed(acts[..|acts| - 1], d);
      StepAbandons(Exec(acts[..|acts| - 1]).value, acts[|acts| - 1], Exec(acts).value, d);
    }
  }

  /** When an operation is over, pins of a dispatcher it did not get attached are left behind if and
      only if removing them failed. */
  lemma PinsLeftIffRemovalFailed(acts: seq<Action>, pid: nat, d: nat)
    requires Exec(acts).Some?
    requires var s := Exec(acts).value;
             && pid in s.procs && Ended(s.procs[pid].phase)
             && d in s.disp && s.disp[d].creator == pid && s.attached != Some(d) && d !in s.retired
    ensures d in Exec(acts).value.pins <==> RemovalFailed(acts, d)
  {
    hide Exec, RemovalFailed, IsRest, AttachedOK, DispsOK, IdsOK, RequestsPrivate, CreatorsOK, HistoryOK, ProcOK;
    ReachableInv(acts);
    AbandonedIffRemovalFailed(acts, d);
    var s := Exec(acts).value;
    assert d in s.pins ==> HasOwner(s, d);
  }

  // ---------------------------------------------------------------------------
  // Results

  /** The step after a commit in which a process fails to remove the old pins. */
  ghost predicate UnpinFailsAt(s: Option<State>, a: Action, pid: nat, err: Errno) {
    && s.Some? && a.Act? && a.pid == pid && a.choice.UnpinFails? && a.choice.err == err && pid in s.value.procs
    && s.value.procs[pid].phase.UnpinOld?
  }

  ghost predicate FinalUnpinFailed(acts: seq<Action>, pid: nat, err: Errno) {
    && acts != []
    && var before := acts[..|acts| - 1];
       FinalUnpinFailed(before, pid, err) || UnpinFailsAt(Exec(before), acts[|acts| - 1], pid, err)
  }

  /** What a process says of the unpin after its commit: whether it failed with EAGAIN, and whether with
      another error. */
  ghost predicate TellsUnpin(p: Proc, again: bool, other: bool) {
    && (!p.committed || p.phase.UnpinOld? ==> !again && !other)
    && (p.committed && !p.phase.UnpinOld? && !p.phase.Done? ==> again && !other)
    && (p.committed && p.phase.Done? && p.phase.result.Some? ==>
          if p.phase.result.value == OtherErr then other && !again else again && !other)
  }

  lemma {:induction false} ErrorsOfDetachCheck(ids: seq<nat>, list: seq<Component>)
    ensures var r := DetachCheck(ids, list); r.Some? ==> r.value == EINVAL || r.value == ENOENT
  {
    if ids != [] {
      ErrorsOfDetachCheck(ids[1..], list);
    }
  }

  lemma AfterReadErrors(p: Proc, o: Option<OldMp>)
    ensures var p' := AfterRead(p, o);
            && p'.committed == p.committed && !p'.phase.UnpinOld?
            && (p'.phase.Done? ==> p'.phase.result == Some(EINVAL) || p'.phase.result == Some(ENOENT))
  {
    hide DetachCheck;
    if p.op.Detach? && o.Some? {
      ErrorsOfDetachCheck(p.op.ids, o.value.list);
    }
  }

  lemma OwnUnpin(s: State, pid: nat, p: Proc, c: Choice, s': State, p': Proc, again: bool, other: bool)
    requires ProcOK(s, pid, p) && ProcOK(s', pid, p') && Transition(s, p, c, p') && TellsUnpin(p, again, other)
    ensures var fails := p.phase.UnpinOld? && c.UnpinFails?;
            TellsUnpin(p', again || (fails && c.err == EAGAIN), other || (fails && c.err == OtherErr))
  {
    hide WellFormedOp, PhaseOK, RemovesAttached, AfterRead, NotThere;
    if p.phase.ReadPins? {
      var o: OldMp :| p' == AfterRead(p, Some(o));
      AfterReadErrors(p, Some(o));
    } else {
      AfterReadErrors(p, None);
    }
  }

  lemma {:induction false} RunTellsUnpin(acts: seq<Action>, pid: nat)
    requires Exec(acts).Some?
    ensures var again, other := FinalUnpinFailed(acts, pid, EAGAIN), FinalUnpinFailed(acts, pid, OtherErr);
            var s := Exec(acts).value;
            if pid in s.procs then TellsUnpin(s.procs[pid], again, other) else !again && !other
  {
    hide Step, ProcOK, Transition, AttachedOK, DispsOK;
    if acts != [] {
      var before, a := acts[..|acts| - 1], acts[|acts| - 1];
      var s, s' := Exec(before).value, Exec(acts).value;
      RunTellsUnpin(before, pid);
      assert Moves(s, a.pid, Step(s, a));
      if a.Start? {
        StartPhase(s, a, s');
      } else if a.pid == pid {
        StepTransition(s, pid, a.choice, s');
        InvGives(before, pid);
        InvGives(acts, pid);
        OwnUnpin(s, pid, s.procs[pid], a.choice, s', s'.procs[pid],
                 FinalUnpinFailed(before, pid, EAGAIN), FinalUnpinFailed(before, pid, OtherErr));
      }
    }
  }

  /** An operation that is over has committed exactly once if it succeeded or if the unpin after its
      commit failed, and not at all otherwise. Only a detach reports an error after its commit: the
      error of that unpin, or, when that was EAGAIN and the detach looked again, the one it got then. */
  lemma ResultTellsCommits(acts: seq<Action>, pid: nat)
    requires Exec(acts).Some? && pid in Exec(acts).value.procs
    requires Exec(acts).value.procs[pid].phase.Done?
    ensures var s := Exec(acts).value; var r := s.procs[pid].phase.result;
            var again, other := FinalUnpinFailed(acts, pid, EAGAIN), FinalUnpinFailed(acts, pid, OtherErr);
            && CommitsBy(s.history, pid) == (if r.None? || again || other then 1 else 0)
            && (r.Some? && (again || other) ==> s.procs[pid].op.Detach?)
            && (r.Some? && other ==> r.value == OtherErr)
            && (r.Some? && again ==> r.value == EBUSY || r.value == ENOENT || r.value == EINVAL)
  {
    hide Exec, FinalUnpinFailed, IdsOK, RequestsPrivate, CreatorsOK, PinsOK, DispsOK, AttachedOK, PhaseOK, CommitsBy, DetachedOK;
    ReachableInv(acts);
    RunTellsUnpin(acts, pid);
    var s := Exec(acts).value;
    assert ProcOK(s, pid, s.procs[pid]);
  }

  /** Nothing but a commit changes what is attached. */
  lemma OnlyCommitsChangeTheInterface(s: State, a: Action, s': State)
    requires Step(s, a) == Some(s') && s'.attached != s.attached
    ensures |s'.history| == |s.history| + 1
    ensures s'.history[..|s.history|] == s.history
    ensures s'.history[|s.history|].pid == a.pid
  {
    hide QsortResult, BuildInput, WellFormedOp, ReadBack, LinkedCount, DetachCheck, PinDir, Trim;
  }

  // ---------------------------------------------------------------------------
  // Bounded retry

  ghost function PhaseRank(ph: Phase): int {
    match ph
    case Query(inner, _) => 2 * (MAX_RETRY - inner) + 8
    case GetFd(inner, _) => 2 * (MAX_RETRY - inner) + 7
    case ReadPins(_) => 6
    case Build(_) => 5
    case PinNew(_, _) => 4
    case Swap(_, _) => 3
    case UnpinNew(_, _) => 2
    case UnpinOld(_, _) => 1
    case Done(_) => 0
    case Astray => 0
  }

  /** Outer retries left, then inner retries left, then distance to the end of the attempt. */
  ghost function Rank(p: Proc): int {
    if Ended(p.phase) then 0 else (MAX_RETRY - p.retry) * 29 + PhaseRank(p.phase)
  }

  ghost function StepsOf(acts: seq<Action>, pid: nat): nat {
    if acts == [] then 0
    else
      var a := acts[|acts| - 1];
      StepsOf(acts[..|acts| - 1], pid) + if a.Act? && a.pid == pid then 1 else 0
  }

  ghost predicate RetriesInBounds(p: Proc) {
    && (!p.phase.Done? ==> p.retry <= MAX_RETRY)
    && (p.phase.Query? ==> p.phase.inner <= MAX_RETRY)
    && (p.phase.GetFd? ==> p.phase.inner <= MAX_RETRY)
  }

  lemma AfterReadRank(p: Proc, o: Option<OldMp>)
    requires RetriesInBounds(p) && (p.phase.Query? || p.phase.GetFd? || p.phase.ReadPins?)
    ensures 0 <= Rank(AfterRead(p, o)) < Rank(p)
  {
    hide DetachCheck;
  }

  /** Starting over costs a retry. */
  lemma AfterAgainRank(p: Proc)
    requires RetriesInBounds(p) && !Ended(p.phase)
    ensures 0 <= Rank(AfterAgain(p)) < Rank(p)
  {
  }

  lemma FailureRank(p: Proc, err: Errno)
    requires RetriesInBounds(p) && !Ended(p.phase)
    ensures 0 <= Rank(AfterError(p, err)) < Rank(p)
    ensures p.phase.Swap? ==> 0 <= Rank(AfterFailedSwap(p, p.phase.newDisp, err)) < Rank(p)
  {
    hide AfterAgain;
    AfterAgainRank(p);
  }

  lemma ReadLowersRank(s: State, p: Proc, c: Choice, p': Proc)
    requires RetriesInBounds(p) && Transition(s, p, c, p') && (p.phase.Query? || p.phase.GetFd? || p.phase.ReadPins?)
    ensures 0 <= Rank(p') < Rank(p)
  {
    hide AfterRead;
    if p.phase.ReadPins? {
      var o: OldMp :| p' == AfterRead(p, Some(o));
      AfterReadRank(p, Some(o));
    } else {
      AfterReadRank(p, None);
    }
  }

  lemma StepLowersRank(s: State, p: Proc, c: Choice, p': Proc)
    requires RetriesInBounds(p) && Transition(s, p, c, p')
    ensures 0 <= Rank(p') < Rank(p)
  {
    hide AfterRead, AfterAgain, AfterError, AfterFailedSwap;
    if p.phase.Query? || p.phase.GetFd? || p.phase.ReadPins? {
      ReadLowersRank(s, p, c, p');
    } else {
      forall err
        ensures 0 <= Rank(AfterError(p, err)) < Rank(p)
        ensures p.phase.Swap? ==> 0 <= Rank(AfterFailedSwap(p, p.phase.newDisp, err)) < Rank(p)
      {
        FailureRank(p, err);
      }
      AfterAgainRank(p);
    }
  }

  /** Under any schedule, and whatever the kernel answers, an operation is over after at
      most 318 steps of its own. */
  lemma {:induction false} BoundedRetry(acts: seq<Action>, pid: nat)
    requires Exec(acts).Some?
    ensures pid in Exec(acts).value.procs ==>
              0 <= Rank(Exec(acts).value.procs[pid]) && StepsOf(acts, pid) + Rank(Exec(acts).value.procs[pid]) <= 318
    ensures pid !in Exec(acts).value.procs ==> StepsOf(acts, pid) == 0
    ensures StepsOf(acts, pid) <= 318
  {
    if acts != [] {
      var before := acts[..|acts| - 1];
      var a := acts[|acts| - 1];
      var s := Exec(before).value;
      BoundedRetry(before, pid);
      ReachableInv(before);
      assert pid in s.procs ==> ProcOK(s, pid, s.procs[pid]) && RetriesInBounds(s.procs[pid]);
      hide Inv;
      assert Moves(s, a.pid, Step(s, a));
      if a.Act? && a.pid == pid {
        StepTransition(s, pid, a.choice, Exec(acts).value);
        StepLowersRank(s, s.procs[pid], a.choice, Exec(acts).value.procs[pid]);
      } else if a.pid == pid {
        assert Rank(Exec(acts).value.procs[pid]) <= 318;
      }
    }
  }

  // ---------------------------------------------------------------------------
  // Failing calls

  /** Where a process is after a failure: over with this error, or, if the error is EAGAIN and that is looked
      at here, at the start again until it has tried eleven times. */
  ghost predicate FailureOutcome(p: Proc, err: Errno, again: bool, p': Proc) {
    && p'.op == p.op && p'.committed == p.committed
    && if err != EAGAIN || !again then p'.phase == Done(Some(err))
       else if p.retry < 10 then p'.phase == Query(0, None) && p'.retry == p.retry + 1
       else p'.phase == Done(Some(EBUSY))
  }

  /** The call of this step fails, and with what error: loading with E2BIG when there are too many programs,
      and otherwise with the error of the kernel. */
  ghost predicate CallFails(p: Proc, c: Choice, err: Errno) {
    match p.phase
    case Build(o) => c.LoadFails? && err == if Wanted(o, p.op) > 10 then E2BIG else c.err
    case PinNew(_, _) => (c.Refused? || c.PinFails?) && err == c.err
    case Swap(_, _) => c.Refused? && err == c.err
    case _ => false
  }

  lemma FailedCallStep(s: State, pid: nat, c: Choice, err: Errno, s': State)
    requires Inv(s) && pid in s.procs && CallFails(s.procs[pid], c, err) && Step(s, Act(pid, c)) == Some(s')
    ensures var p, p' := s.procs[pid], s'.procs[pid];
            && s'.attached == s.attached && s'.history == s.history
            && if p.phase.Swap? && p.phase.newDisp.Some? then p' == At(p, UnpinNew(p.phase.newDisp.value, err))
               else FailureOutcome(p, err, p.phase.Swap? || p.op.Detach?, p')
  {
    hide IdsOK, RequestsPrivate, CreatorsOK, PinsOK, HistoryOK, DispsOK, AttachedOK, WellFormedOp, PinDir, BuiltFor, IsRest,
      Part, LeftOver, BuildInput, QsortResult;
    assert ProcOK(s, pid, s.procs[pid]);
  }

  /** In every run a failing call changes nothing on the interface. An attach is over with the error of a load or
      a pin, whatever it is; a detach starts over if it is EAGAIN. After a swap both do, and remove the new
      pins first. */
  lemma FailedCall(acts: seq<Action>, pid: nat, c: Choice, err: Errno)
    requires Exec(acts).Some? && pid in Exec(acts).value.procs && Exec(acts + [Act(pid, c)]).Some?
    requires CallFails(Exec(acts).value.procs[pid], c, err)
    ensures var s, s' := Exec(acts).value, Exec(acts + [Act(pid, c)]).value;
            var p := s.procs[pid];
            && pid in s'.procs && s'.attached == s.attached && s'.history == s.history
            && if p.phase.Swap? && p.phase.newDisp.Some? then
                 s'.procs[pid] == At(p, UnpinNew(p.phase.newDisp.value, err))
               else FailureOutcome(p, err, p.phase.Swap? || p.op.Detach?, s'.procs[pid])
  {
    hide Step, Inv, FailureOutcome, CallFails;
    ReachableInv(acts);
    assert (acts + [Act(pid, c)])[..|acts|] == acts;
    assert Moves(Exec(acts).value, pid, Step(Exec(acts).value, Act(pid, c)));
    FailedCallStep(Exec(acts).value, pid, c, err, Exec(acts + [Act(pid, c)]).value);
  }

  lemma UnpinnedStep(s: State, pid: nat, c: Choice, s': State)
    requires Inv(s) && pid in s.procs && s.procs[pid].phase.UnpinNew? && Step(s, Act(pid, c)) == Some(s')
    ensures s'.attached == s.attached && s'.history == s.history
    ensures FailureOutcome(s.procs[pid], s.procs[pid].phase.err, true, s'.procs[pid])
  {
    hide IdsOK, RequestsPrivate, CreatorsOK, PinsOK, HistoryOK, DispsOK, AttachedOK, WellFormedOp, PinDir, BuiltFor, IsRest;
    assert ProcOK(s, pid, s.procs[pid]);
  }

  /** Once it has been at its pins, removed or not, it goes on as after any failed swap. */
  lemma UnpinnedGoesOn(acts: seq<Action>, pid: nat, c: Choice)
    requires Exec(acts).Some? && pid in Exec(acts).value.procs && Exec(acts + [Act(pid, c)]).Some?
    requires Exec(acts).value.procs[pid].phase.UnpinNew?
    ensures var s, s' := Exec(acts).value, Exec(acts + [Act(pid, c)]).value;
            && pid in s'.procs && s'.attached == s.attached && s'.history == s.history
            && FailureOutcome(s.procs[pid], s.procs[pid].phase.err, true, s'.procs[pid])
  {
    hide Step, Inv, FailureOutcome;
    ReachableInv(acts);
    assert (acts + [Act(pid, c)])[..|acts|] == acts;
    assert Moves(Exec(acts).value, pid, Step(Exec(acts).value, Act(pid, c)));
    UnpinnedStep(Exec(acts).value, pid, c, Exec(acts + [Act(pid, c)]).value);
  }

  // ---------------------------------------------------------------------------
  // Reads that do not give the programs

  /** The read takes the dispatcher for a legacy program. */
  ghost predicate ReadAsLegacy(s: State, id: nat, c: Choice)
    requires id in s.disp && ConfigShape(s.disp[id].mp.config)
  {
    c.PinsUnreadable? || ReadBack(s.pins, id, s.disp[id].mp.config).None?
  }

  /** What a detach does about a legacy program: nothing else can be detached than that one. */
  ghost predicate LegacyOutcome(ids: seq<nat>, id: nat, ph: Phase) {
    if ids == [id] && id != 0 then ph.Swap? && ph.oldMp.Some? && ph.oldMp.value.id == id && ph.newDisp.None?
    else if |ids| == 1 && ids[0] != 0 then ph == Done(Some(ENOENT))
    else ph == Done(Some(EINVAL))
  }

  lemma LegacyStep(s: State, pid: nat, c: Choice, s': State)
    requires pid in s.procs && s.procs[pid].phase.ReadPins? && Step(s, Act(pid, c)) == Some(s')
    ensures var id := s.procs[pid].phase.id;
            id in s.disp && ConfigShape(s.disp[id].mp.config) &&
            (ReadAsLegacy(s, id, c) && s.procs[pid].op.Detach? ==>
               LegacyOutcome(s.procs[pid].op.ids, id, s'.procs[pid].phase))
  {
    hide ReadBack, LinkedCount, ConfigShape, DetachCheck;
    assert Step(s, Act(pid, c)) == StepReadPins(s, pid, s.procs[pid], c);
    hide Step;
    if c.PinsUnreadable? {
      assert s'.procs[pid] == AfterRead(s.procs[pid], Some(OldMp(s.procs[pid].phase.id, true, c.after, [], true)));
    }
  }

  /** In every run: a detach that cannot read the pins of the dispatcher takes it for a legacy program and removes
      it if that is the one program it was asked to detach; it reports -ENOENT for another program, and
      -EINVAL for several or one that is not loaded. */
  lemma LegacyDetach(acts: seq<Action>, pid: nat, c: Choice)
    requires Exec(acts).Some? && pid in Exec(acts).value.procs && Exec(acts + [Act(pid, c)]).Some?
    requires Exec(acts).value.procs[pid].phase.ReadPins? && Exec(acts).value.procs[pid].op.Detach?
    ensures var s, s' := Exec(acts).value, Exec(acts + [Act(pid, c)]).value;
            var id := s.procs[pid].phase.id;
            && id in s.disp && ConfigShape(s.disp[id].mp.config) && pid in s'.procs
            && (ReadAsLegacy(s, id, c) ==> LegacyOutcome(s.procs[pid].op.ids, id, s'.procs[pid].phase))
  {
    hide Step, ReadAsLegacy, LegacyOutcome, ConfigShape;
    assert (acts + [Act(pid, c)])[..|acts|] == acts;
    assert Moves(Exec(acts).value, pid, Step(Exec(acts).value, Act(pid, c)));
    LegacyStep(Exec(acts).value, pid, c, Exec(acts + [Act(pid, c)]).value);
  }

  lemma PartialStep(s: State, pid: nat, after: nat)
    requires pid in s.procs && s.procs[pid].phase.ReadPins? && Step(s, Act(pid, PinsUnreadable(after))).Some?
    ensures var id := s.procs[pid].phase.id;
            id in s.disp && (after == 0 || after < s.disp[id].mp.config.numProgsEnabled)
  {
    hide ReadBack, LinkedCount, ConfigShape, AfterRead;
    assert Step(s, Act(pid, PinsUnreadable(after))) == StepReadPins(s, pid, s.procs[pid], PinsUnreadable(after));
  }

  lemma ConfigCounts(s: State, d: nat)
    requires Inv(s) && d in s.disp
    ensures 1 <= |s.disp[d].mp.links| == s.disp[d].mp.config.numProgsEnabled
  {
    hide AttachedOK, IdsOK, RequestsPrivate, CreatorsOK, PinsOK, HistoryOK, DetachedOK, ProcOK, QsortResult, NoCrossing;
    assert DispOK(s.disp[d]);
  }

  /** In every run: a read that fails although the pins are there has not come to the last program. */
  lemma FailedReadIsPartial(acts: seq<Action>, pid: nat, after: nat)
    requires Exec(acts).Some? && pid in Exec(acts).value.procs && Exec(acts + [Act(pid, PinsUnreadable(after))]).Some?
    requires Exec(acts).value.procs[pid].phase.ReadPins?
    ensures var s := Exec(acts).value;
            var id := s.procs[pid].phase.id;
            id in s.disp && after < |s.disp[id].mp.links|
  {
    hide Step, Inv;
    assert (acts + [Act(pid, PinsUnreadable(after))])[..|acts|] == acts;
    ReachableInv(acts);
    PartialStep(Exec(acts).value, pid, after);
    ConfigCounts(Exec(acts).value, Exec(acts).value.procs[pid].phase.id);
  }

  // ---------------------------------------------------------------------------
  // Lost races

  /** Where a process is once a lost race has been dealt with. */
  ghost predicate RaceOutcome(p: Proc, o: Option<OldMp>, c: Choice, p': Proc) {
    && !p'.committed
    && (p'.phase == Query(0, None) <==> o.Some? && p.retry < 10)
    && (o.Some? && p.retry == 10 ==> p'.phase == Done(Some(EBUSY)))
    && (o.None? ==>
          c.AlreadyLoaded? && (c.err == EBUSY || c.err == EEXIST) && p'.phase == Done(Some(c.err)))
  }

  lemma LostSwap(s: State, pid: nat, c: Choice, s': State)
    requires Inv(s) && pid in s.procs && s.procs[pid].phase.Swap? && s.attached != Expected(s.procs[pid].phase.oldMp)
    requires !c.Refused? && Step(s, Act(pid, c)) == Some(s')
    ensures var p, p' := s.procs[pid], s'.procs[pid];
            && p.retry <= 10 && !p'.committed && s'.attached == s.attached && s'.history == s.history
            && (p.phase.newDisp.None? ==> RaceOutcome(p, p.phase.oldMp, c, p'))
            && (p.phase.newDisp.Some? ==>
                  && p'.retry == p.retry
                  && (p.phase.oldMp.None? ==> c.AlreadyLoaded? && (c.err == EBUSY || c.err == EEXIST))
                  && p'.phase == UnpinNew(p.phase.newDisp.value, if p.phase.oldMp.Some? then EAGAIN else c.err))
  {
    hide IdsOK, RequestsPrivate, CreatorsOK, PinsOK, HistoryOK, DispsOK, AttachedOK, WellFormedOp, PinDir, BuiltFor, IsRest;
    assert ProcOK(s, pid, s.procs[pid]);
  }

  lemma AfterLostSwap(s: State, pid: nat, p: Proc, c: Choice, c2: Choice, s': State)
    requires pid in s.procs && p.phase.Swap? && p.phase.newDisp.Some? && p.retry <= MAX_RETRY
    requires p.phase.oldMp.None? ==> c.AlreadyLoaded? && (c.err == EBUSY || c.err == EEXIST)
    requires s.procs[pid].phase == UnpinNew(p.phase.newDisp.value, if p.phase.oldMp.Some? then EAGAIN else c.err)
    requires s.procs[pid].retry == p.retry && !s.procs[pid].committed && Step(s, Act(pid, c2)) == Some(s')
    ensures RaceOutcome(p, p.phase.oldMp, c, s'.procs[pid])
  {
    hide Trim;
  }

  /** A swap that finds something else attached than it expects commits nothing. The operation starts
      over if and only if it had read a dispatcher and has retries left; without retries it ends with
      EBUSY, and if it had found the interface empty it ends with the error of the kernel. That is so
      whatever others do before it gets to removing its pins, and whether that succeeds or not. */
  lemma LostRace(acts: seq<Action>, pid: nat, c: Choice, between: seq<Action>, c2: Choice)
    requires Exec(acts).Some? && pid in Exec(acts).value.procs && Exec(acts).value.procs[pid].phase.Swap?
    requires Exec(acts).value.attached != Expected(Exec(acts).value.procs[pid].phase.oldMp)
    requires !c.Refused? && Exec(acts + [Act(pid, c)]).Some?
    requires forall a | a in between :: a.pid != pid
    ensures var p := Exec(acts).value.procs[pid]; var s1 := Exec(acts + [Act(pid, c)]).value;
            && pid in s1.procs && s1.attached == Exec(acts).value.attached && s1.history == Exec(acts).value.history
            && (p.phase.newDisp.None? ==> RaceOutcome(p, p.phase.oldMp, c, s1.procs[pid]))
            && (p.phase.newDisp.Some? && Exec(acts + [Act(pid, c)] + between + [Act(pid, c2)]).Some? ==>
                  var s2 := Exec(acts + [Act(pid, c)] + between + [Act(pid, c2)]).value;
                  pid in s2.procs && RaceOutcome(p, p.phase.oldMp, c, s2.procs[pid]))
  {
    hide Step, Inv, RaceOutcome;
    var s := Exec(acts).value;
    var p := s.procs[pid];
    ReachableInv(acts);
    var acts1 := acts + [Act(pid, c)];
    assert acts1[..|acts|] == acts;
    LostSwap(s, pid, c, Exec(acts1).value);
    var acts2 := acts1 + between;
    var acts3 := acts2 + [Act(pid, c2)];
    assert acts3[..|acts2|] == acts2;
    if p.phase.newDisp.Some? && Exec(acts3).Some? {
      OthersKeep(acts1, between, pid);
      AfterLostSwap(Exec(acts2).value, pid, p, c, c2, Exec(acts3).value);
    }
  }

  // ---------------------------------------------------------------------------
  // Building the new dispatcher

  /** The entries an operation hands to xdp_multiprog__generate(). */
  ghost predicate Requested(p: Proc, progs: seq<Entry>) {
    match p.op
    case Attach(cs) => progs == seq(|cs|, i requires 0 <= i < |cs| => Entry(cs[i], p.loaded, true))
    case Detach(ids) => EntryIds(progs) == IdsOf(ids) && |progs| == |ids|
  }

  lemma SameInput(p: Proc, progs: seq<Entry>, o: Option<OldMp>)
    requires Requested(p, progs) && (p.op.Detach? ==> o.Some?)
    ensures BuildInput(o, p) == GenInput(OldPrograms(ReadOf(o)), progs, p.op.Detach?)
  {
    if p.op.Attach? {
      assert Pinned([]) + progs == progs;
    }
  }

  lemma SameCount(s: State, pid: nat, p: Proc, progs: seq<Entry>)
    requires DispsOK(s) && ProcOK(s, pid, p) && p.phase.Build? && Requested(p, progs)
    requires OldCount(ReadOf(p.phase.oldMp)) < SIZE_T / 4 && |progs| < SIZE_T / 4
    ensures var o := p.phase.oldMp; var n := NewCount(OldCount(ReadOf(o)), |progs|, p.op.Detach?);
            && n == Wanted(o, p.op) && n >= |BuildInput(o, p)|
            && (n == |BuildInput(o, p)| <==> CountExact(o))
            && (p.op.Detach? ==> CountExact(o) && o.Some?)
  {
    hide DispOK, WellFormedOp, IdSet, Without, DistinctIds, IdsOf;
    var o := p.phase.oldMp;
    if p.op.Detach? {
      assert DistinctIds(o.value.list) by {
        LinksAreDistinct(s.disp[o.value.id]);
      }
      DetachSize(p.op.ids, o.value.list);
    }
  }

  lemma DetachSize(ids: seq<nat>, list: seq<Component>)
    requires WellFormedOp(Detach(ids)) && DistinctIds(list) && IdsOf(ids) <= IdSet(list)
    ensures |Without(list, IdsOf(ids))| == |list| - |ids|
  {
    DistinctIdCount(ids);
    RemovalCount(list, IdsOf(ids));
  }

  /** The load step of a process is xdp_multiprog__generate(). Whatever that answers for the
      dispatcher this process read is what the step does: a dispatcher it installs, the error it ends
      with, or the loop that runs past the request. A program to remove is never found missing. */
  lemma LoadIsGenerate(s: State, pid: nat, p: Proc, progs: seq<Entry>, r: GenResult, d: nat)
    requires DispsOK(s) && ProcOK(s, pid, p) && p.phase.Build? && Requested(p, progs) && d !in s.ids
    requires OldCount(ReadOf(p.phase.oldMp)) < SIZE_T / 4 && |progs| < SIZE_T / 4
    requires Answers(ReadOf(p.phase.oldMp), progs, p.op.Detach?, r)
    ensures r != GenErr(EINVAL)
    ensures r.Generated? ==>
              var s' := StepBuild(s, pid, p, Load(d, r.order));
              s'.Some? && d in s'.value.disp && s'.value.disp[d].mp == r.mp
    ensures r == GenErr(E2BIG) ==> StepBuild(s, pid, p, LoadFails(OtherErr)) == Some(With(s, pid, At(p, Done(Some(E2BIG)))))
    ensures r == GenErr(OtherErr) ==>
              forall err | CallError(err) :: StepBuild(s, pid, p, LoadFails(err)) == Some(With(s, pid, AfterError(p, err)))
    ensures r == Undefined <==> StepBuild(s, pid, p, Normal).Some?
    ensures r == Undefined ==> StepBuild(s, pid, p, Normal) == Some(With(s, pid, At(p, Astray)))
  {
    hide ConfigOf, DispsOK, ProcOK, BuildInput, GenInput, Components, Pinned, QsortResult;
    var o := p.phase.oldMp;
    SameCount(s, pid, p, progs);
    SameInput(p, progs, o);
    if r.Generated? {
      SortedLength(BuildInput(o, p), r.order);
    }
  }

  lemma SortedLength(input: seq<Entry>, order: seq<Entry>)
    requires QsortResult(input, order)
    ensures |order| == |input| == |Components(order)|
  {
    PermutationLength(input, order);
  }

  /** In every reachable state: an attach runs past its request if and only if its read failed after
      the first program and the numbers stay within the dispatcher; such a read is one that failed
      although the pins were there, and the attempt can load nothing. */
  lemma AstrayIffCountLeftOver(acts: seq<Action>, pid: nat)
    requires Exec(acts).Some? && pid in Exec(acts).value.procs && Exec(acts).value.procs[pid].phase.Build?
    requires Exec(acts).value.procs[pid].op.Attach?
    ensures var s := Exec(acts).value; var p := s.procs[pid]; var o := p.phase.oldMp;
            && (Step(s, Act(pid, Normal)).Some? <==>
                  o.Some? && o.value.legacy && o.value.count > 0 && o.value.count + |p.op.progs| <= MAX_DISPATCHER_ACTIONS)
            && (Step(s, Act(pid, Normal)).Some? ==>
                  && Step(s, Act(pid, Normal)).value.procs[pid].phase == Astray
                  && o.value.fault
                  && forall d, order :: Step(s, Act(pid, Load(d, order))).None?)
  {
    hide Exec, IdsOK, RequestsPrivate, CreatorsOK, PinsOK, HistoryOK, DispsOK, AttachedOK, WellFormedOp, QsortResult, BuildInput;
    ReachableInv(acts);
    assert ProcOK(Exec(acts).value, pid, Exec(acts).value.procs[pid]);
  }

  /** An unfinished operation can always take a step. */
  lemma NeverStuck(acts: seq<Action>, pid: nat)
    requires Exec(acts).Some? && pid in Exec(acts).value.procs
    requires !Ended(Exec(acts).value.procs[pid].phase)
    ensures exists c :: Step(Exec(acts).value, Act(pid, c)).Some?
  {
    hide Exec, IdsOK, RequestsPrivate, CreatorsOK, PinsOK, HistoryOK, AttachedOK, WellFormedOp, Step;
    ReachableInv(acts);
    var s := Exec(acts).value;
    var p := s.procs[pid];
    assert ProcOK(s, pid, p);
    if p.phase.ReadPins? {
      assert DispOK(s.disp[p.phase.id]);
    }
    CanStep(s, pid);
  }

  ghost function Possible(s: State, ph: Phase): Choice {
    if ph.Build? then LoadFails(OtherErr)
    else if ph.Swap? && ph.oldMp.None? && s.attached.Some? then AlreadyLoaded(EEXIST)
    else Normal
  }

  lemma CanStep(s: State, pid: nat)
    requires pid in s.procs && !Ended(s.procs[pid].phase)
    requires s.procs[pid].phase.ReadPins? ==>
               s.procs[pid].phase.id in s.disp && ConfigShape(s.disp[s.procs[pid].phase.id].mp.config)
    requires s.procs[pid].phase.PinNew? ==> s.procs[pid].phase.d in s.disp
    ensures Step(s, Act(pid, Possible(s, s.procs[pid].phase))).Some?
  {
  }
}
