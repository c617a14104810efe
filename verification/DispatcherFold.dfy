/** No lost update: what is attached against the fold of all committed operations. */
module DispatcherFold {
  import opened Common
  import opened DispatcherOrder
  import opened Dispatcher
  import opened DispatcherGenerate
  import opened DispatcherProtocol
  import opened DispatcherSafety

  /** All committed operations, applied one after the other to an empty interface. */
  ghost function Fold(h: seq<Commit>): seq<Component> {
    if h == [] then [] else Apply(Fold(h[..|h| - 1]), h[|h| - 1].op)
  }

  /** The programs that were attached whenever a commit rested on a failed read of their pins. */
  ghost function Lost(h: seq<Commit>): multiset<Component> {
    if h == [] then multiset{}
    else Lost(h[..|h| - 1]) + if h[|h| - 1].fault then multiset(h[|h| - 1].before) else multiset{}
  }

  lemma Extended(h: seq<Commit>, c: Commit)
    ensures Fold(h + [c]) == Apply(Fold(h), c.op)
    ensures Lost(h + [c]) == Lost(h) + if c.fault then multiset(c.before) else multiset{}
  {
    assert (h + [c])[..|h|] == h;
  }

  /** The id was asked for by an operation that has committed. */
  ghost predicate CommittedId(s: State, id: nat) {
    exists pid :: pid in s.procs && s.procs[pid].committed && id in ReqIds(s.procs[pid].op)
  }

  ghost predicate Balanced(current: seq<Component>, fold: seq<Component>, lost: multiset<Component>) {
    multiset(fold) == multiset(current) + lost
  }

  ghost predicate FoldOK(s: State) {
    && DistinctIds(Fold(s.history))
    && (forall c | c in Fold(s.history) :: CommittedId(s, c.prog.id))
    && Balanced(Current(s), Fold(s.history), Lost(s.history))
    && (forall i | 0 <= i < |s.history| && s.history[i].fault :: s.history[i].before != [])
  }

  lemma InitFold()
    ensures FoldOK(Init)
  {
    assert Fold([]) == [];
  }

  // ---------------------------------------------------------------------------
  // One commit on the two sides of the balance

  /** Programs that are lost and programs that are attached have different ids. */
  lemma LostIsApart(current: seq<Component>, fold: seq<Component>, lost: multiset<Component>, c: Component)
    requires Balanced(current, fold, lost) && DistinctIds(fold) && c.prog.id in IdSet(current)
    ensures lost[c] == 0
  {
    var x :| x in current && x.prog.id == c.prog.id;
    assert multiset(fold)[c] == multiset(current)[c] + lost[c];
    assert x in multiset(current) && x in multiset(fold) && x in fold;
    DistinctOnce(fold, c);
    if c in fold {
      var i :| 0 <= i < |fold| && fold[i] == x;
      var j :| 0 <= j < |fold| && fold[j] == c;
      assert i == j;
    } else {
      assert c !in multiset(fold);
    }
  }

  lemma DetachBalances(current: seq<Component>, fold: seq<Component>, lost: multiset<Component>, ids: set<nat>)
    requires Balanced(current, fold, lost) && DistinctIds(fold) && ids <= IdSet(current)
    ensures Balanced(Without(current, ids), Without(fold, ids), lost)
  {
    forall c
      ensures multiset(Without(fold, ids))[c] == multiset(Without(current, ids))[c] + lost[c]
    {
      WithoutMultiplicity(fold, ids, c);
      WithoutMultiplicity(current, ids, c);
      if c.prog.id in ids {
        LostIsApart(current, fold, lost, c);
      }
    }
  }

  /** Removing an id that no program has. */
  lemma NothingToRemove(fold: seq<Component>, ids: set<nat>)
    requires forall c | c in fold :: c.prog.id !in ids
    ensures multiset(Without(fold, ids)) == multiset(fold)
  {
    forall c
      ensures multiset(Without(fold, ids))[c] == multiset(fold)[c]
    {
      WithoutMultiplicity(fold, ids, c);
      assert c in multiset(fold) ==> c in fold;
    }
  }

  lemma AttachBalances(current: seq<Component>, fold: seq<Component>, lost: multiset<Component>, progs: seq<Component>)
    requires Balanced(current, fold, lost)
    ensures Balanced(current + progs, fold + progs, lost)
    ensures Balanced(progs, fold + progs, lost + multiset(current))
  {
    assert multiset(fold + progs) == multiset(fold) + multiset(progs);
    assert multiset(current + progs) == multiset(current) + multiset(progs);
  }

  /** Component ids are never dispatcher ids. */
  lemma FoldHasNoDispatcher(s: State, d: nat)
    requires FoldOK(s) && IdsOK(s) && d in s.disp
    ensures forall c | c in Fold(s.history) :: c.prog.id != d
  {
    hide Fold, IdSet, ReqIds;
    forall c | c in Fold(s.history)
      ensures c.prog.id != d
    {
      assert CommittedId(s, c.prog.id);
    }
  }

  /** A swap after a failed read leaves the request alone on the interface, or nothing. */
  lemma FaultySwap(s: State, pid: nat, p: Proc, o: Option<OldMp>, nd: Option<nat>)
    requires Swapping(s, pid, p, o, nd) && o.Some? && o.value.fault
    ensures p.op.Attach? ==> Permutation(LinksOf(s, nd), p.op.progs)
    ensures p.op.Detach? ==> LinksOf(s, nd) == [] && IdsOf(p.op.ids) == {o.value.id} && o.value.id in s.disp
  {
    hide PinDir, WellFormedOp, IsRest;
    if p.op.Attach? {
      assert Apply([], p.op) == p.op.progs;
    }
  }

  /** Any other swap changes the list on the interface as asked. */
  lemma HonestSwap(s: State, pid: nat, p: Proc, o: Option<OldMp>, nd: Option<nat>)
    requires AttachedOK(s) && Swapping(s, pid, p, o, nd) && !(o.Some? && o.value.fault)
    ensures Permutation(LinksOf(s, nd), Apply(Current(s), p.op))
    ensures p.op.Detach? ==> IdsOf(p.op.ids) <= IdSet(Current(s))
  {
    hide PinDir, WellFormedOp, IsRest;
    assert o.Some? ==> !o.value.legacy;
    assert Current(s) == OldList(o);
  }

  lemma CommitBalances(s: State, pid: nat, p: Proc, o: Option<OldMp>, nd: Option<nat>)
    requires AttachedOK(s) && IdsOK(s) && Swapping(s, pid, p, o, nd) && FoldOK(s)
    ensures var fault := o.Some? && o.value.fault;
            Balanced(LinksOf(s, nd), Apply(Fold(s.history), p.op),
                     Lost(s.history) + if fault then multiset(Current(s)) else multiset{})
  {
    hide Fold, Lost, IdsOK, ReqIds, DistinctIds, AttachedOK, Swapping, LinksOf, Current, Expected;
    var fold, lost, current := Fold(s.history), Lost(s.history), Current(s);
    if o.Some? && o.value.fault {
      FaultySwap(s, pid, p, o, nd);
      match p.op {
        case Attach(progs) => AttachBalances(current, fold, lost, progs);
        case Detach(ids) =>
          FoldHasNoDispatcher(s, o.value.id);
          NothingToRemove(fold, IdsOf(ids));
      }
    } else {
      HonestSwap(s, pid, p, o, nd);
      match p.op {
        case Attach(progs) => AttachBalances(current, fold, lost, progs);
        case Detach(ids) => DetachBalances(current, fold, lost, IdsOf(ids));
      }
      assert lost + multiset{} == lost;
    }
  }

  lemma CommitDistinct(s: State, pid: nat, p: Proc)
    requires IdsOK(s) && FoldOK(s) && pid in s.procs && p == s.procs[pid] && !p.committed && WellFormedOp(p.op)
    ensures DistinctIds(Apply(Fold(s.history), p.op))
    ensures forall c | c in Apply(Fold(s.history), p.op) :: CommittedId(s, c.prog.id) || c.prog.id in ReqIds(p.op)
  {
    hide Fold, Lost, Balanced;
    var fold := Fold(s.history);
    match p.op {
      case Attach(progs) =>
        forall i, j | 0 <= i < |fold| && 0 <= j < |progs|
          ensures fold[i].prog.id != progs[j].prog.id
        {
          assert CommittedId(s, fold[i].prog.id);
          assert progs[j] in progs && progs[j].prog.id in ReqIds(p.op);
        }
      case Detach(ids) =>
        WithoutDistinct(fold, IdsOf(ids));
        WithoutMembers(fold, IdsOf(ids));
    }
  }

  lemma CommitFold(s: State, pid: nat, p: Proc, o: Option<OldMp>, nd: Option<nat>, s': State)
    requires Inv(s) && FoldOK(s) && Swapping(s, pid, p, o, nd) && !p.committed && s' == DoCommit(s, pid, p, o, nd)
    requires nd.Some? ==> nd.value in s.disp
    ensures FoldOK(s')
  {
    hide Fold, Lost, Apply, Balanced, DistinctIds, ReqIds, PhaseOK, IdsOK, RequestsPrivate, CreatorsOK, PinsOK, HistoryOK;
    CommitBalances(s, pid, p, o, nd);
    CommitDistinct(s, pid, p);
    var c := s'.history[|s.history|];
    assert s'.history == s.history + [c];
    Extended(s.history, c);
    if c.fault {
      FaultyCommitLoses(s, pid, p, o, nd);
    }
    forall x | x in Fold(s'.history)
      ensures CommittedId(s', x.prog.id)
    {
      KeepCommitted(s, s', pid, x.prog.id);
    }
  }

  lemma FaultyCommitLoses(s: State, pid: nat, p: Proc, o: Option<OldMp>, nd: Option<nat>)
    requires AttachedOK(s) && DispsOK(s) && Swapping(s, pid, p, o, nd) && o.Some? && o.value.fault
    ensures Current(s) != []
  {
    hide PhaseOK;
    assert DispOK(s.disp[s.attached.value]);
  }

  lemma KeepCommitted(s: State, s': State, pid: nat, id: nat)
    requires pid in s.procs && pid in s'.procs && s'.procs == s.procs[pid := s'.procs[pid]]
    requires s'.procs[pid].op == s.procs[pid].op && s'.procs[pid].committed
    requires CommittedId(s, id) || id in ReqIds(s.procs[pid].op)
    ensures CommittedId(s', id)
  {
    hide ReqIds;
    if id in ReqIds(s.procs[pid].op) {
      assert id in ReqIds(s'.procs[pid].op);
    } else {
      var q :| q in s.procs && s.procs[q].committed && id in ReqIds(s.procs[q].op);
      assert q in s'.procs && s'.procs[q].committed && id in ReqIds(s'.procs[q].op);
    }
  }

  // ---------------------------------------------------------------------------
  // Every run

  /** Whatever a step does short of a commit, it leaves the committed operations alone. */
  ghost predicate QuietFor(s: State, s': State) {
    && s'.history == s.history && Current(s') == Current(s)
    && forall q | q in s.procs ::
         q in s'.procs && s'.procs[q].op == s.procs[q].op && s'.procs[q].committed == s.procs[q].committed
  }

  lemma QuietFold(s: State, s': State)
    requires FoldOK(s) && QuietFor(s, s')
    ensures FoldOK(s')
  {
    hide Fold, Lost, Balanced, DistinctIds, ReqIds;
    forall c | c in Fold(s'.history)
      ensures CommittedId(s', c.prog.id)
    {
      assert CommittedId(s, c.prog.id);
      var q :| q in s.procs && s.procs[q].committed && c.prog.id in ReqIds(s.procs[q].op);
      assert q in s'.procs && s'.procs[q].committed;
    }
  }

  lemma StartIsQuiet(s: State, pid: nat, op: Op, s': State)
    requires StepStart(s, pid, op) == Some(s')
    ensures QuietFor(s, s')
  {
    hide WellFormedOp, ReqIds;
  }

  lemma LoadIsQuiet(s: State, pid: nat, p: Proc, c: Choice, s': State)
    requires AttachedOK(s) && DispsOK(s) && pid in s.procs && p == s.procs[pid] && p.phase.Build?
    requires StepBuild(s, pid, p, c) == Some(s')
    ensures QuietFor(s, s')
  {
    hide QsortResult, BuildInput, Components, ConfigOf, DispOK, PinDir;
    if c.Load? {
      assert c.d !in s.disp;
    }
  }

  lemma ReadIsQuiet(s: State, pid: nat, p: Proc, c: Choice, s': State)
    requires pid in s.procs && p == s.procs[pid] && (p.phase.Query? || p.phase.GetFd? || p.phase.ReadPins?)
    requires Step(s, Act(pid, c)) == Some(s')
    ensures QuietFor(s, s')
  {
    hide ReadBack, LinkedCount, DetachCheck, ConfigShape;
  }

  lemma SwapIsQuiet(s: State, pid: nat, p: Proc, c: Choice, s': State)
    requires pid in s.procs && p == s.procs[pid] && (p.phase.Swap? || p.phase.UnpinNew? || p.phase.UnpinOld? || p.phase.PinNew?)
    requires Step(s, Act(pid, c)) == Some(s')
    requires !(c == Normal && p.phase.Swap? && s.attached == Expected(p.phase.oldMp))
    ensures QuietFor(s, s')
  {
    hide PinDir, Trim;
  }

  lemma StepIsQuiet(s: State, a: Action, s': State)
    requires AttachedOK(s) && DispsOK(s) && Step(s, a) == Some(s')
    requires !(a.Act? && a.choice == Normal && s.procs[a.pid].phase.Swap? &&
               s.attached == Expected(s.procs[a.pid].phase.oldMp))
    ensures QuietFor(s, s')
  {
    hide QuietFor, AttachedOK, DispsOK, StepBuild, StepStart, StepQuery, StepGetFd, StepReadPins, StepSwap, StepPinNew,
      StepUnpinNew, StepUnpinOld;
    match a {
      case Start(pid, op) => StartIsQuiet(s, pid, op, s');
      case Act(pid, c) =>
        var p := s.procs[pid];
        if p.phase.Build? {
          LoadIsQuiet(s, pid, p, c, s');
        } else if p.phase.Query? || p.phase.GetFd? || p.phase.ReadPins? {
          ReadIsQuiet(s, pid, p, c, s');
        } else if p.phase.Swap? || p.phase.UnpinNew? || p.phase.UnpinOld? || p.phase.PinNew? {
          SwapIsQuiet(s, pid, p, c, s');
        }
    }
  }

  lemma StepFold(s: State, a: Action, s': State)
    requires Inv(s) && FoldOK(s) && Step(s, a) == Some(s')
    ensures FoldOK(s')
  {
    hide FoldOK, IdsOK, RequestsPrivate, CreatorsOK, PinsOK, HistoryOK, WellFormedOp;
    if a.Act? && a.choice == Normal && s.procs[a.pid].phase.Swap? &&
       s.attached == Expected(s.procs[a.pid].phase.oldMp) {
      var p := s.procs[a.pid];
      assert ProcOK(s, a.pid, p);
      CommitFold(s, a.pid, p, p.phase.oldMp, p.phase.newDisp, s');
    } else {
      StepIsQuiet(s, a, s');
      QuietFold(s, s');
    }
  }

  lemma {:induction false} RunFolds(acts: seq<Action>)
    requires Exec(acts).Some?
    ensures FoldOK(Exec(acts).value)
  {
    hide FoldOK, Step;
    if acts == [] {
      InitFold();
    } else {
      var before := acts[..|acts| - 1];
      RunFolds(before);
      ReachableInv(before);
      StepFold(Exec(before).value, acts[|acts| - 1], Exec(acts).value);
    }
  }

  lemma {:induction false} LostNothing(h: seq<Commit>)
    requires forall i | 0 <= i < |h| && h[i].fault :: h[i].before != []
    ensures Lost(h) == multiset{} <==> forall i | 0 <= i < |h| :: !h[i].fault
  {
    if h != [] {
      var n := |h| - 1;
      assert forall i | 0 <= i < n :: h[..n][i] == h[i];
      LostNothing(h[..n]);
      if h[n].fault {
        assert h[n].before[0] in multiset(h[n].before);
        assert h[n].before[0] in Lost(h);
      }
    }
  }

  /** After every run, the programs on the interface together with the programs lost by commits
      that rested on a failed read are the fold of all committed operations in commit order. */
  lemma FoldIsCurrentPlusLost(acts: seq<Action>)
    requires Exec(acts).Some?
    ensures var s := Exec(acts).value; multiset(Fold(s.history)) == multiset(Current(s)) + Lost(s.history)
  {
    RunFolds(acts);
  }

  lemma ApplyPermutation(a: seq<Component>, b: seq<Component>, op: Op)
    requires Permutation(a, b)
    ensures Permutation(Apply(a, op), Apply(b, op))
  {
    match op {
      case Attach(progs) =>
        assert multiset(a + progs) == multiset(a) + multiset(progs);
        assert multiset(b + progs) == multiset(b) + multiset(progs);
      case Detach(ids) => WithoutPermutation(a, b, IdsOf(ids));
    }
  }

  /** Commits that each find what the one before left behind, and none of which rests on a failed read,
      add up to the fold of their operations, whatever ids the programs have. */
  lemma {:induction false} FaithfulCommitsFold(h: seq<Commit>)
    requires Chained(h) && FaithfulUnlessFault(h) && forall i | 0 <= i < |h| :: !h[i].fault
    ensures Permutation(ListAfter(h, |h|), Fold(h))
  {
    hide Apply, Chained, FaithfulUnlessFault, ListAfter;
    if h == [] {
      assert ListAfter(h, 0) == Fold(h) by {
        EmptyHistory(h);
      }
    } else {
      var n := |h| - 1;
      WithoutLast(h);
      assert forall i | 0 <= i < n :: h[..n][i] == h[i];
      FaithfulCommitsFold(h[..n]);
      ApplyPermutation(h[n].before, Fold(h[..n]), h[n].op);
    }
  }

  lemma EmptyHistory(h: seq<Commit>)
    requires h == []
    ensures ListAfter(h, 0) == Fold(h)
  {
  }

  lemma WithoutLast(h: seq<Commit>)
    requires h != [] && Chained(h) && FaithfulUnlessFault(h)
    ensures var n := |h| - 1; var init := h[..n];
            && Chained(init) && FaithfulUnlessFault(init)
            && ListAfter(init, n) == h[n].before && ListAfter(h, n + 1) == h[n].after
            && (!h[n].fault ==> Permutation(h[n].after, Apply(h[n].before, h[n].op)))
  {
    hide Apply;
    var n := |h| - 1;
    var init := h[..n];
    assert forall i | 0 <= i < n :: init[i] == h[i];
    assert forall i | 0 <= i <= n :: ListAfter(init, i) == ListAfter(h, i);
    assert Faithful(h[n]) <==> !h[n].fault;
  }

  /** After every run, no update is lost if and only if no commit rested on a read that failed
      although the pins were there. */
  lemma NoLostUpdate(acts: seq<Action>)
    requires Exec(acts).Some?
    ensures var s := Exec(acts).value;
            Permutation(Current(s), Fold(s.history)) <==> forall i | 0 <= i < |s.history| :: !s.history[i].fault
  {
    RunFolds(acts);
    var s := Exec(acts).value;
    hide Exec, Fold, Lost;
    LostNothing(s.history);
    assert multiset(Fold(s.history)) == multiset(Current(s)) + Lost(s.history);
    if Permutation(Current(s), Fold(s.history)) {
      forall c
        ensures Lost(s.history)[c] == 0
      {
        assert multiset(Fold(s.history))[c] == multiset(Current(s))[c] + Lost(s.history)[c];
      }
    }
  }
}
