/** Which pin directories there are: those of dispatchers that were replaced, and those that are left
    when every operation is over. */
module DispatcherPins {
  import opened Common
  import opened DispatcherOrder
  import opened Dispatcher
  import opened DispatcherGenerate
  import opened DispatcherProtocol
  import opened DispatcherSafety
  import opened DispatcherTheorems

  /** The step that replaces d is taken by a process that took d for a legacy program. */
  ghost predicate LegacyCommitAt(s: Option<State>, a: Action, d: nat) {
    && s.Some? && a.Act? && a.choice == Normal && a.pid in s.value.procs && s.value.attached == Some(d)
    && var ph := s.value.procs[a.pid].phase;
       ph.Swap? && ph.oldMp.Some? && ph.oldMp.value.id == d && ph.oldMp.value.legacy
  }

  /** The step in which the process that replaced d removes its pins does not go through. */
  ghost predicate OldUnpinFailsAt(s: Option<State>, a: Action, d: nat) {
    && s.Some? && a.Act? && a.choice.UnpinFails? && a.pid in s.value.procs
    && var ph := s.value.procs[a.pid].phase;
       ph.UnpinOld? && ph.o.id == d
  }

  /** One of the two has happened. */
  ghost predicate OldPinsKept(acts: seq<Action>, d: nat) {
    && acts != []
    && var before, a := acts[..|acts| - 1], acts[|acts| - 1];
       OldPinsKept(before, d) || LegacyCommitAt(Exec(before), a, d) || OldUnpinFailsAt(Exec(before), a, d)
  }

  /** The process that replaced d has not come to its pins yet. */
  ghost predicate Unpins(p: Proc, d: nat) {
    p.phase.UnpinOld? && p.phase.o.id == d
  }

  ghost predicate SomeoneUnpins(s: State, d: nat) {
    exists pid :: pid in s.procs && Unpins(s.procs[pid], d)
  }

  ghost predicate OldPinsOK(s: State, d: nat, kept: bool) {
    && (d !in s.retired ==> !kept)
    && (forall p, q | p in s.procs && q in s.procs && Unpins(s.procs[p], d) && Unpins(s.procs[q], d) :: p == q)
    && (forall pid | pid in s.procs && Unpins(s.procs[pid], d) ::
          d in s.retired && d in s.pins && (kept <==> s.procs[pid].phase.o.legacy))
    && (d in s.retired && !SomeoneUnpins(s, d) ==> (d in s.pins <==> kept))
  }

  /** A step that neither replaces d nor removes its pins. */
  ghost predicate LeavesOld(s: State, s': State, pid: nat, d: nat) {
    && pid in s'.procs && s'.procs == s.procs[pid := s'.procs[pid]]
    && (d in s.retired <==> d in s'.retired)
    && (d in s.retired ==> (d in s.pins <==> d in s'.pins))
    && (pid in s.procs && Unpins(s.procs[pid], d) <==> Unpins(s'.procs[pid], d))
    && (pid in s.procs && Unpins(s.procs[pid], d) ==> s'.procs[pid] == s.procs[pid])
  }

  lemma KeepsOld(s: State, s': State, pid: nat, d: nat, kept: bool)
    requires OldPinsOK(s, d, kept) && LeavesOld(s, s', pid, d)
    ensures OldPinsOK(s', d, kept)
  {
    hide Unpins;
    if pid in s.procs {
      assert forall q :: q in s'.procs && Unpins(s'.procs[q], d) <==> q in s.procs && Unpins(s.procs[q], d);
    }
    if SomeoneUnpins(s, d) {
      var q :| q in s.procs && Unpins(s.procs[q], d);
      assert q in s'.procs && Unpins(s'.procs[q], d);
    }
  }

  /** Steps on the way to a swap, and the removal of pins that never were in use. */
  lemma EarlyStepLeaves(s: State, a: Action, s': State, d: nat)
    requires Step(s, a) == Some(s')
    requires a.Act? && a.pid in s.procs ==>
               var ph := s.procs[a.pid].phase;
               && !ph.UnpinOld? && !(ph.Swap? && a.choice == Normal && s.attached == Expected(ph.oldMp))
               && (ph.PinNew? ==> ph.d !in s.retired) && (ph.UnpinNew? ==> ph.d !in s.retired)
    ensures LeavesOld(s, s', a.pid, d)
  {
    hide Step;
    assert Moves(s, a.pid, Step(s, a));
    if a.Start? {
      StartLeaves(s, a, s', d);
    } else {
      StepTransition(s, a.pid, a.choice, s');
      OwnPhase(s, s.procs[a.pid], a.choice, s'.procs[a.pid]);
      PinsLeft(s, a.pid, a.choice, s', d);
    }
  }

  lemma StartLeaves(s: State, a: Action, s': State, d: nat)
    requires a.Start? && Step(s, a) == Some(s')
    ensures LeavesOld(s, s', a.pid, d)
  {
    hide WellFormedOp, ReqIds;
  }

  /** Only a commit leads to UnpinOld. */
  lemma OwnPhase(s: State, p: Proc, c: Choice, p': Proc)
    requires Transition(s, p, c, p') && !p.phase.UnpinOld?
    requires !(p.phase.Swap? && c.Normal? && s.attached == Expected(p.phase.oldMp))
    ensures !p'.phase.UnpinOld?
  {
    hide AfterRead;
    if p.phase.ReadPins? {
      var o: OldMp :| p' == AfterRead(p, Some(o));
      AfterReadErrors(p, Some(o));
    } else {
      AfterReadErrors(p, None);
    }
  }

  lemma PinsLeft(s: State, pid: nat, c: Choice, s': State, d: nat)
    requires Step(s, Act(pid, c)) == Some(s')
    requires var ph := s.procs[pid].phase;
             && !ph.UnpinOld? && !(ph.Swap? && c == Normal && s.attached == Expected(ph.oldMp))
             && (ph.PinNew? ==> ph.d !in s.retired) && (ph.UnpinNew? ==> ph.d !in s.retired)
    ensures s'.retired == s.retired && (d in s.retired ==> (d in s.pins <==> d in s'.pins))
  {
    hide QsortResult, BuildInput, ReadBack, LinkedCount, DetachCheck, PinDir, Trim, Part, LeftOver, Components, ConfigOf,
      AfterRead, AfterAgain, AfterError, AfterFailedSwap;
  }

  /** The swap that replaces d. */
  lemma CommitOld(s: State, pid: nat, p: Proc, o: Option<OldMp>, nd: Option<nat>, s': State, d: nat, kept: bool)
    requires AttachedOK(s) && OldPinsOK(s, d, kept) && Swapping(s, pid, p, o, nd) && s' == DoCommit(s, pid, p, o, nd)
    requires forall q | q in s.procs && s.procs[q].phase.UnpinOld? :: s.procs[q].phase.o.id in s.retired
    ensures OldPinsOK(s', d, kept || (o.Some? && o.value.id == d && o.value.legacy))
  {
    hide ProcOK, PinDir, Current, LinksOf;
    if o.Some? && o.value.id == d {
      assert d !in s.retired && Unpins(s'.procs[pid], d);
      assert forall q | q in s.procs :: !Unpins(s.procs[q], d);
    } else {
      assert LeavesOld(s, s', pid, d);
      KeepsOld(s, s', pid, d, kept);
    }
  }

  /** The step on the pins of d after that. */
  lemma UnpinOld(s: State, pid: nat, c: Choice, s': State, d: nat, kept: bool)
    requires OldPinsOK(s, d, kept) && pid in s.procs && s.procs[pid].phase.UnpinOld?
    requires Step(s, Act(pid, c)) == Some(s')
    ensures OldPinsOK(s', d, kept || OldUnpinFailsAt(Some(s), Act(pid, c), d))
  {
    hide Trim;
    var p := s.procs[pid];
    assert !s'.procs[pid].phase.UnpinOld?;
    if p.phase.o.id == d {
      assert Unpins(p, d);
      assert forall q | q in s'.procs :: !Unpins(s'.procs[q], d);
    } else {
      assert LeavesOld(s, s', pid, d);
      KeepsOld(s, s', pid, d, kept);
    }
  }

  lemma StepOld(s: State, a: Action, s': State, d: nat, kept: bool)
    requires Inv(s) && OldPinsOK(s, d, kept) && Step(s, a) == Some(s')
    ensures OldPinsOK(s', d, kept || LegacyCommitAt(Some(s), a, d) || OldUnpinFailsAt(Some(s), a, d))
  {
    hide DispsOK, IdsOK, RequestsPrivate, CreatorsOK, PinsOK, HistoryOK, DetachedOK, WellFormedOp, OldPinsOK, BuiltFor,
      RemovesAttached, Again, OldOK, PinDir;
    assert forall q | q in s.procs :: ProcOK(s, q, s.procs[q]);
    if a.Act? && s.procs[a.pid].phase.UnpinOld? {
      UnpinOld(s, a.pid, a.choice, s', d, kept);
    } else if a.Act? && s.procs[a.pid].phase.Swap? && a.choice == Normal &&
              s.attached == Expected(s.procs[a.pid].phase.oldMp) {
      var p := s.procs[a.pid];
      CommitOld(s, a.pid, p, p.phase.oldMp, p.phase.newDisp, s', d, kept);
    } else {
      EarlyStepLeaves(s, a, s', d);
      KeepsOld(s, s', a.pid, d, kept);
    }
  }

  lemma {:induction false} RunOld(acts: seq<Action>, d: nat)
    requires Exec(acts).Some?
    ensures OldPinsOK(Exec(acts).value, d, OldPinsKept(acts, d))
  {
    hide Step, Inv, OldPinsOK;
    if acts == [] {
      NothingOld(d);
    } else {
      var before := acts[..|acts| - 1];
      RunOld(before, d);
      ReachableInv(before);
      StepOld(Exec(before).value, acts[|acts| - 1], Exec(acts).value, d, OldPinsKept(before, d));
    }
  }

  lemma NothingOld(d: nat)
    ensures OldPinsOK(Init, d, false)
  {
  }

  /** In every run: once the process that replaced a dispatcher has been at its pins, they are still
      there if and only if removing them failed or that process had taken the dispatcher for a legacy
      program. */
  lemma OldPinsLeftIffKept(acts: seq<Action>, d: nat)
    requires Exec(acts).Some? && d in Exec(acts).value.retired && !SomeoneUnpins(Exec(acts).value, d)
    ensures d in Exec(acts).value.pins <==> OldPinsKept(acts, d)
  {
    hide Exec, OldPinsKept;
    RunOld(acts, d);
  }

  /** When every operation is over, there are the pins of the attached dispatcher and those that could
      not, or were not known to have to be, removed; and no others. */
  lemma PinsAtRest(acts: seq<Action>, d: nat)
    requires Exec(acts).Some? && forall pid | pid in Exec(acts).value.procs :: Ended(Exec(acts).value.procs[pid].phase)
    ensures d in Exec(acts).value.pins <==>
            Exec(acts).value.attached == Some(d) || RemovalFailed(acts, d) || OldPinsKept(acts, d)
  {
    hide Exec, OldPinsKept, RemovalFailed, IsRest, DispsOK, IdsOK, RequestsPrivate, HistoryOK, DetachedOK, ProcOK;
    ReachableInv(acts);
    RunOld(acts, d);
    AbandonedIffRemovalFailed(acts, d);
    var s := Exec(acts).value;
    if d in s.pins {
      assert HasOwner(s, d);
    }
  }
}
