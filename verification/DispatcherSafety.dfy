/** What every run of the dispatcher protocol keeps. */
module DispatcherSafety {
  import opened Common
  import opened DispatcherOrder
  import opened Dispatcher
  import opened DispatcherGenerate
  import opened DispatcherProtocol

  // ---------------------------------------------------------------------------
  // The invariant

  ghost predicate EverAttached(s: State, d: nat) {
    d in s.disp && (s.attached == Some(d) || d in s.retired)
  }

  ghost predicate DispOK(x: Disp) {
    && QsortResult(x.input, x.order)
    && x.mp.links == Components(x.order)
    && 1 <= |x.mp.links| <= MAX_DISPATCHER_ACTIONS
    && x.mp.config == ConfigOf(x.mp.links)
    && DistinctIds(x.mp.links)
    && (forall c | c in x.mp.links :: CallerBitsOnly(c))
    && (!x.reloaded ==> NoCrossing(x.input))
  }

  ghost predicate OldOK(s: State, o: Option<OldMp>) {
    o.Some? ==>
      && EverAttached(s, o.value.id)
      && (o.value.legacy ==>
            && o.value.list == [] && (o.value.id in s.retired || o.value.fault)
            && (o.value.count > 0 ==> o.value.fault))
      && (!o.value.legacy ==>
            && !o.value.fault && o.value.list == s.disp[o.value.id].mp.links
            && o.value.count == |o.value.list|)
  }

  /** A dispatcher that its creator has not put on the interface. */
  ghost predicate Unpublished(s: State, pid: nat, d: nat) {
    d in s.disp && s.disp[d].creator == pid && s.attached != Some(d) && d !in s.retired
  }

  ghost predicate BuiltFor(s: State, op: Op, o: Option<OldMp>, d: nat) {
    d in s.disp && Permutation(s.disp[d].mp.links, Apply(OldList(o), op))
  }

  ghost predicate PhaseOK(s: State, pid: nat, p: Proc) {
    match p.phase
    case Query(inner, id) => inner <= MAX_RETRY && (id.Some? ==> EverAttached(s, id.value))
    case GetFd(inner, id) => inner <= MAX_RETRY && EverAttached(s, id)
    case ReadPins(id) => EverAttached(s, id)
    case Build(o) =>
      OldOK(s, o) && (p.op.Detach? ==> o.Some? && !o.value.legacy && RemovesSome(p.op.ids, o.value.list))
    case PinNew(o, d) =>
      && OldOK(s, o) && Unpublished(s, pid, d) && d !in s.pins && BuiltFor(s, p.op, o, d)
      && (p.op.Detach? ==> o.Some? && !o.value.legacy)
    case Swap(o, nd) =>
      && OldOK(s, o)
      && (nd.Some? ==>
            && Unpublished(s, pid, nd.value) && nd.value !in s.abandoned
            && nd.value in s.pins && s.pins[nd.value] == PinDir(s.disp[nd.value].mp.links)
            && BuiltFor(s, p.op, o, nd.value)
            && (p.op.Detach? ==> o.Some? && !o.value.legacy))
      && (nd.None? ==>
            && p.op.Detach? && o.Some?
            && (!o.value.legacy ==> Apply(o.value.list, p.op) == [])
            && (o.value.legacy ==> p.op.ids == [o.value.id]))
    case UnpinNew(d, _) => Unpublished(s, pid, d) && d !in s.abandoned
    case UnpinOld(o, full) => o.id in s.retired && (full ==> p.op.Detach?)
    case Done(_) => true
    case Astray => p.op.Attach?
  }

  ghost predicate RemovesSome(ids: seq<nat>, list: seq<Component>) {
    IdsOf(ids) <= IdSet(list) && |ids| < |list|
  }

  /** A detach asks only for programs of the dispatcher it read. */
  ghost predicate RemovesAttached(op: Op, o: Option<OldMp>) {
    op.Detach? && o.Some? && !o.value.legacy ==> IdsOf(op.ids) <= IdSet(o.value.list)
  }

  /** Before the load step of an attempt. */
  ghost predicate Reading(ph: Phase) {
    ph.Query? || ph.GetFd? || ph.ReadPins? || ph.Build?
  }

  /** A detach that has committed and looks again will not find its programs. */
  ghost predicate NotThere(s: State, ids: seq<nat>, id: nat) {
    id !in IdsOf(ids) && id in s.disp && IdsOf(ids) !! IdSet(s.disp[id].mp.links)
  }

  ghost predicate Again(s: State, p: Proc) {
    && p.op.Detach?
    && match p.phase
       case Query(_, id) => id.Some? ==> NotThere(s, p.op.ids, id.value)
       case GetFd(_, id) => NotThere(s, p.op.ids, id)
       case ReadPins(id) => NotThere(s, p.op.ids, id)
       case _ => false
  }

  /** What a detach can report after it has committed. */
  predicate LateError(err: Errno) {
    err == OtherErr || err == EBUSY || err == ENOENT || err == EINVAL
  }

  ghost predicate ProcOK(s: State, pid: nat, p: Proc) {
    && WellFormedOp(p.op)
    && (!p.phase.Done? ==> (p.op.Attach? ==> p.op.progs != []) && (p.op.Detach? ==> p.op.ids != []))
    && (p.phase.Done? || p.retry <= MAX_RETRY)
    && PhaseOK(s, pid, p)
    && (p.phase.UnpinOld? ==> p.committed)
    && (p.committed ==> p.phase.UnpinOld? || p.phase.Done? || Again(s, p))
    && (p.phase == Done(None) ==> p.committed)
    && (p.loaded && Reading(p.phase) ==> p.retry >= 1)
    && (p.phase.Build? || p.phase.PinNew? || p.phase.Swap? ==> RemovesAttached(p.op, p.phase.oldMp))
    && (p.phase.Done? && p.phase.result.Some? && p.committed ==> p.op.Detach? && LateError(p.phase.result.value))
  }

  ghost predicate AttachedOK(s: State) {
    s.attached.Some? ==>
      && s.attached.value in s.disp && s.attached.value !in s.retired
      && s.attached.value in s.pins
      && s.pins[s.attached.value] == PinDir(s.disp[s.attached.value].mp.links)
  }

  ghost predicate DispsOK(s: State) {
    && s.retired <= s.disp.Keys <= s.ids
    && forall d | d in s.disp :: DispOK(s.disp[d])
  }

  /** Dispatcher ids and component ids come from one id space without reuse. */
  ghost predicate IdsOK(s: State) {
    && (forall d | d in s.disp :: IdSet(s.disp[d].mp.links) <= s.ids)
    && (forall d, e | d in s.disp && e in s.disp :: e !in IdSet(s.disp[d].mp.links))
    && (forall pid | pid in s.procs :: ReqIds(s.procs[pid].op) <= s.ids)
    && (forall pid, d | pid in s.procs && d in s.disp :: d !in ReqIds(s.procs[pid].op))
    && (forall p, q | p in s.procs && q in s.procs && p != q :: ReqIds(s.procs[p].op) !! ReqIds(s.procs[q].op))
  }

  /** Until an attach commits, only its own dispatchers hold its programs. */
  ghost predicate RequestsPrivate(s: State) {
    forall pid, d | pid in s.procs && d in s.disp && !s.procs[pid].committed && s.disp[d].creator != pid ::
      ReqIds(s.procs[pid].op) !! IdSet(s.disp[d].mp.links)
  }

  ghost predicate CreatorsOK(s: State) {
    forall d | d in s.disp ::
      && s.disp[d].creator in s.procs
      && (EverAttached(s, d) ==> s.procs[s.disp[d].creator].committed)
      && (s.disp[d].reloaded ==> s.procs[s.disp[d].creator].op.Attach? && s.procs[s.disp[d].creator].retry >= 1)
  }

  /** Programs that a committed detach asked for are not attached, and nobody is about to attach them. */
  ghost predicate GoneFor(s: State, ids: seq<nat>) {
    && IdsOf(ids) <= s.ids && IdsOf(ids) !! IdSet(Current(s))
    && (forall d | d in s.disp && d in IdsOf(ids) :: d in s.retired)
    && (forall q | q in s.procs && !s.procs[q].committed :: ReqIds(s.procs[q].op) !! IdsOf(ids))
  }

  ghost predicate DetachedOK(s: State) {
    forall pid | pid in s.procs && s.procs[pid].committed && s.procs[pid].op.Detach? :: GoneFor(s, s.procs[pid].op.ids)
  }

  ghost predicate Holds(p: Proc, d: nat) {
    (p.phase.Swap? && p.phase.newDisp == Some(d)) || (p.phase.UnpinNew? && p.phase.d == d)
  }

  ghost predicate HasOwner(s: State, d: nat) {
    d in s.disp && (EverAttached(s, d) || d in s.abandoned ||
                    (s.disp[d].creator in s.procs && Holds(s.procs[s.disp[d].creator], d)))
  }

  /** Every pin directory belongs to a dispatcher and is what an interrupted removal leaves of its
      files; one that was never attached is about to be used or removed by its creator, or its
      removal has failed and it may be any part. */
  ghost predicate PinsOK(s: State) {
    && (forall d | d in s.pins :: HasOwner(s, d) && (d !in s.abandoned ==> IsRest(s.pins[d], s.disp[d].mp.links)))
    && (forall d | d in s.abandoned :: d in s.pins && d in s.disp && !EverAttached(s, d))
  }

  ghost function CommitsBy(h: seq<Commit>, pid: nat): nat {
    if h == [] then 0
    else CommitsBy(h[..|h| - 1], pid) + (if h[|h| - 1].pid == pid then 1 else 0)
  }

  /** One commit takes the list it finds to the list the operation asks for. */
  ghost predicate Faithful(c: Commit) {
    Permutation(c.after, Apply(c.before, c.op))
  }

  /** The list left behind by the first n commits. */
  ghost function ListAfter(h: seq<Commit>, n: nat): seq<Component>
    requires n <= |h|
  {
    if n == 0 then [] else h[n - 1].after
  }

  ghost predicate Chained(h: seq<Commit>) {
    forall i | 0 <= i < |h| :: h[i].before == ListAfter(h, i)
  }

  ghost predicate FaithfulUnlessFault(h: seq<Commit>) {
    forall i | 0 <= i < |h| :: Faithful(h[i]) <==> !h[i].fault
  }

  ghost predicate HistoryOK(s: State) {
    && Chained(s.history) && FaithfulUnlessFault(s.history)
    && Current(s) == ListAfter(s.history, |s.history|)
    && (forall pid :: CommitsBy(s.history, pid) == if pid in s.procs && s.procs[pid].committed then 1 else 0)
  }

  ghost predicate Inv(s: State) {
    && AttachedOK(s) && DispsOK(s) && IdsOK(s) && RequestsPrivate(s) && CreatorsOK(s) && PinsOK(s) && HistoryOK(s)
    && DetachedOK(s)
    && forall pid | pid in s.procs :: ProcOK(s, pid, s.procs[pid])
  }

  // ---------------------------------------------------------------------------
  // Steps that only move the process

  ghost predicate Frame(s: State, s': State, q: nat) {
    && (forall d | d in s.disp :: d in s'.disp && s'.disp[d] == s.disp[d])
    && s.retired <= s'.retired
    && (forall d | EverAttached(s, d) :: EverAttached(s', d))
    && (forall d | Unpublished(s, q, d) ::
          && Unpublished(s', q, d)
          && (d in s.abandoned <==> d in s'.abandoned)
          && (d in s.pins <==> d in s'.pins)
          && (d in s.pins ==> s'.pins[d] == s.pins[d]))
  }

  lemma FramePhase(s: State, s': State, q: nat, p: Proc)
    requires PhaseOK(s, q, p) && Frame(s, s', q)
    ensures PhaseOK(s', q, p)
  {
  }

  lemma FrameAgain(s: State, s': State, q: nat, p: Proc)
    requires Frame(s, s', q)
    ensures Again(s, p) ==> Again(s', p)
  {
    hide IdSet, IdsOf;
  }

  /** Same processes running the same operations, with the same commits. */
  ghost predicate SameOps(s: State, s': State) {
    && s'.procs.Keys == s.procs.Keys
    && forall q | q in s.procs ::
         && s'.procs[q].op == s.procs[q].op && s'.procs[q].committed == s.procs[q].committed
         && s'.procs[q].retry >= s.procs[q].retry
  }

  lemma KeepDisps(s: State, s': State)
    requires AttachedOK(s) && DispsOK(s)
    requires s'.disp == s.disp && s'.ids == s.ids && s'.attached == s.attached && s'.retired == s.retired
    requires s.attached.Some? && s.attached.value in s.pins ==>
               s.attached.value in s'.pins && s'.pins[s.attached.value] == s.pins[s.attached.value]
    ensures AttachedOK(s') && DispsOK(s')
  {
  }

  lemma KeepIds(s: State, s': State)
    requires IdsOK(s) && SameOps(s, s') && s'.disp == s.disp && s'.ids == s.ids
    ensures IdsOK(s')
  {
  }

  lemma KeepPrivate(s: State, s': State)
    requires RequestsPrivate(s) && SameOps(s, s') && s'.disp == s.disp
    ensures RequestsPrivate(s')
  {
  }

  lemma KeepCreators(s: State, s': State)
    requires CreatorsOK(s) && SameOps(s, s') && s'.disp == s.disp
    requires s'.attached == s.attached && s'.retired == s.retired
    ensures CreatorsOK(s')
  {
    forall d | d in s'.disp
      ensures s'.disp[d].creator in s'.procs && (EverAttached(s', d) ==> s'.procs[s'.disp[d].creator].committed)
      ensures s'.disp[d].reloaded ==> s'.procs[s'.disp[d].creator].op.Attach? && s'.procs[s'.disp[d].creator].retry >= 1
    {
      assert EverAttached(s', d) ==> EverAttached(s, d);
    }
  }

  lemma KeepHistory(s: State, s': State)
    requires HistoryOK(s) && SameOps(s, s') && s'.history == s.history && Current(s') == Current(s)
    ensures HistoryOK(s')
  {
  }

  lemma KeepProcs(s: State, s': State, pid: nat)
    requires forall q | q in s.procs :: ProcOK(s, q, s.procs[q])
    requires s'.procs.Keys == s.procs.Keys + {pid}
    requires forall q | q in s.procs && q != pid :: s'.procs[q] == s.procs[q] && Frame(s, s', q)
    requires ProcOK(s', pid, s'.procs[pid])
    ensures forall q | q in s'.procs :: ProcOK(s', q, s'.procs[q])
  {
    forall q | q in s'.procs
      ensures ProcOK(s', q, s'.procs[q])
    {
      if q != pid {
        FramePhase(s, s', q, s.procs[q]);
        FrameAgain(s, s', q, s.procs[q]);
      }
    }
  }

  lemma KeepDetached(s: State, s': State)
    requires DetachedOK(s) && SameOps(s, s') && s'.disp == s.disp && s'.ids == s.ids && s'.retired == s.retired
    requires Current(s') == Current(s)
    ensures DetachedOK(s')
  {
    hide IdsOf, IdSet, ReqIds, Current;
    forall pid | pid in s'.procs && s'.procs[pid].committed && s'.procs[pid].op.Detach?
      ensures GoneFor(s', s'.procs[pid].op.ids)
    {
      assert GoneFor(s, s.procs[pid].op.ids);
    }
  }

  lemma LocalPins(s: State, pid: nat, p': Proc)
    requires PinsOK(s) && pid in s.procs
    requires forall d | d in s.pins && Holds(s.procs[pid], d) :: Holds(p', d)
    ensures PinsOK(With(s, pid, p'))
  {
    hide IsRest;
    var s' := With(s, pid, p');
    assert forall d :: EverAttached(s, d) <==> EverAttached(s', d);
    forall d | d in s'.pins
      ensures HasOwner(s', d)
    {
      assert HasOwner(s, d);
    }
  }

  lemma LocalStep(s: State, pid: nat, p': Proc)
    requires Inv(s) && pid in s.procs
    requires p'.op == s.procs[pid].op && p'.committed == s.procs[pid].committed && p'.retry >= s.procs[pid].retry
    requires ProcOK(s, pid, p')
    requires forall d | d in s.pins && Holds(s.procs[pid], d) :: Holds(p', d)
    ensures Inv(With(s, pid, p'))
  {
    hide AttachedOK, DispsOK, IdsOK, RequestsPrivate, CreatorsOK, PinsOK, HistoryOK, DetachedOK, PhaseOK, WellFormedOp,
      Holds, Again;
    var s' := With(s, pid, p');
    assert forall q :: Frame(s, s', q);
    FramePhase(s, s', pid, p');
    FrameAgain(s, s', pid, p');
    KeepDetached(s, s');
    KeepProcs(s, s', pid);
    KeepDisps(s, s');
    KeepIds(s, s');
    KeepPrivate(s, s');
    KeepCreators(s, s');
    KeepHistory(s, s');
    LocalPins(s, pid, p');
  }

  lemma {:induction false} DetachCheckFinds(ids: seq<nat>, list: seq<Component>)
    requires DetachCheck(ids, list).None?
    ensures IdsOf(ids) <= IdSet(list)
  {
    if ids != [] {
      DetachCheckFinds(ids[1..], list);
      assert ids == [ids[0]] + ids[1..];
    }
  }

  lemma {:induction false} DistinctIdCount(ids: seq<nat>)
    requires forall i, j | 0 <= i < j < |ids| :: ids[i] != ids[j]
    ensures |IdsOf(ids)| == |ids|
  {
    if ids != [] {
      DistinctIdCount(ids[1..]);
      assert ids == [ids[0]] + ids[1..];
      assert IdsOf(ids) == {ids[0]} + IdsOf(ids[1..]);
    }
  }

  lemma CheckedDetach(ids: seq<nat>, list: seq<Component>)
    requires WellFormedOp(Detach(ids)) && DistinctIds(list) && DetachCheck(ids, list).None?
    ensures IdsOf(ids) <= IdSet(list)
    ensures |Without(list, IdsOf(ids))| == |list| - |ids|
  {
    DetachCheckFinds(ids, list);
    DistinctIdCount(ids);
    RemovalCount(list, IdsOf(ids));
  }

  /** A detach that has committed ends with an error when it reads again. */
  lemma CommittedRead(s: State, p: Proc, o: Option<OldMp>)
    requires p.op.Detach? && p.op.ids != [] && OldOK(s, o) && (o.Some? ==> NotThere(s, p.op.ids, o.value.id))
    ensures var ph := AfterRead(p, o).phase; ph.Done? && ph.result.Some? && LateError(ph.result.value)
  {
    hide EverAttached;
    var id := p.op.ids[0];
    assert id in IdsOf(p.op.ids);
    if o.Some? && !o.value.legacy {
      assert forall c | c in o.value.list :: c.prog.id in IdSet(o.value.list);
    }
  }

  lemma CommittedReadProc(s: State, pid: nat, p: Proc, o: Option<OldMp>)
    requires ProcOK(s, pid, p) && Reading(p.phase) && !p.phase.Build? && p.op.Detach? && p.committed
    requires OldOK(s, o) && (o.Some? ==> NotThere(s, p.op.ids, o.value.id))
    ensures ProcOK(s, pid, AfterRead(p, o))
  {
    hide NotThere, OldOK, WellFormedOp, DetachCheck, IdsOf;
    CommittedRead(s, p, o);
  }

  lemma AfterDetachRead(s: State, pid: nat, p: Proc, o: Option<OldMp>)
    requires ProcOK(s, pid, p) && DispsOK(s) && Reading(p.phase) && !p.phase.Build? && p.op.Detach? && !p.committed
    requires OldOK(s, o)
    ensures ProcOK(s, pid, AfterRead(p, o))
  {
    hide DispOK, IdSet, PinDir, BuiltFor, IsRest, Without, DetachCheck, WellFormedOp, DistinctIds, IdsOf, Again;
    if o.Some? && !o.value.legacy && DetachCheck(p.op.ids, o.value.list).None? {
      assert DistinctIds(o.value.list) by {
        LinksAreDistinct(s.disp[o.value.id]);
      }
      CheckedDetach(p.op.ids, o.value.list);
    }
  }

  lemma LinksAreDistinct(x: Disp)
    requires DispOK(x)
    ensures DistinctIds(x.mp.links)
  {
  }

  lemma AfterReadProc(s: State, pid: nat, p: Proc, o: Option<OldMp>)
    requires ProcOK(s, pid, p) && DispsOK(s)
    requires p.phase.Query? || p.phase.GetFd? || p.phase.ReadPins?
    requires OldOK(s, o) && (p.committed && o.Some? ==> NotThere(s, p.op.ids, o.value.id))
    ensures ProcOK(s, pid, AfterRead(p, o))
  {
    hide NotThere, DispsOK, OldOK, DetachCheck, WellFormedOp;
    if p.op.Detach? {
      if p.committed {
        CommittedReadProc(s, pid, p, o);
      } else {
        AfterDetachRead(s, pid, p, o);
      }
    }
  }

  lemma AfterReadOK(s: State, pid: nat, o: Option<OldMp>)
    requires Inv(s) && pid in s.procs && OldOK(s, o)
    requires var ph := s.procs[pid].phase; ph.Query? || ph.GetFd? || ph.ReadPins?
    requires s.procs[pid].committed && o.Some? ==> NotThere(s, s.procs[pid].op.ids, o.value.id)
    ensures Inv(With(s, pid, AfterRead(s.procs[pid], o)))
  {
    hide DetachedOK, NotThere, AttachedOK, DispsOK, IdsOK, RequestsPrivate, CreatorsOK, PinsOK, HistoryOK, PhaseOK, OldOK;
    AfterReadProc(s, pid, s.procs[pid], o);
    LocalStep(s, pid, AfterRead(s.procs[pid], o));
  }

  lemma QueryStep(s: State, pid: nat, c: Choice, s': State)
    requires Inv(s) && pid in s.procs && s.procs[pid].phase.Query?
    requires Step(s, Act(pid, c)) == Some(s')
    ensures Inv(s')
  {
    hide DispsOK, IdsOK, RequestsPrivate, CreatorsOK, PinsOK, HistoryOK, WellFormedOp, AfterRead;
    var id := s.procs[pid].phase.progId;
    if c == ReadError || (s.attached.None? && id.None?) {
      AfterReadOK(s, pid, None);
    } else {
      if s.attached.Some? && s.procs[pid].committed {
        AttachedNotThere(s, pid);
      }
      LocalStep(s, pid, s'.procs[pid]);
    }
  }

  lemma AttachedNotThere(s: State, pid: nat)
    requires AttachedOK(s) && DetachedOK(s) && pid in s.procs && s.procs[pid].committed && s.procs[pid].op.Detach?
    requires s.attached.Some?
    ensures NotThere(s, s.procs[pid].op.ids, s.attached.value)
  {
    hide IdsOf, IdSet, ReqIds, PinDir;
    assert GoneFor(s, s.procs[pid].op.ids);
  }

  lemma GetFdStep(s: State, pid: nat, c: Choice, s': State)
    requires Inv(s) && pid in s.procs && s.procs[pid].phase.GetFd?
    requires Step(s, Act(pid, c)) == Some(s')
    ensures Inv(s')
  {
    hide DispsOK, IdsOK, RequestsPrivate, CreatorsOK, PinsOK, HistoryOK, WellFormedOp, AfterRead;
    if c == ReadError || (c == FdGone && s.procs[pid].phase.inner + 1 > MAX_RETRY) {
      AfterReadOK(s, pid, None);
    } else {
      LocalStep(s, pid, s'.procs[pid]);
    }
  }

  lemma ReadPinsStep(s: State, pid: nat, c: Choice, s': State)
    requires Inv(s) && pid in s.procs && s.procs[pid].phase.ReadPins?
    requires Step(s, Act(pid, c)) == Some(s')
    ensures Inv(s')
  {
    hide DispsOK, IdsOK, RequestsPrivate, CreatorsOK, PinsOK, HistoryOK, WellFormedOp, AfterRead;
    var id := s.procs[pid].phase.id;
    if c.PinsUnreadable? {
      AfterReadOK(s, pid, Some(OldMp(id, true, c.after, [], true)));
    } else {
      var config := s.disp[id].mp.config;
      var r, n := ReadBack(s.pins, id, config), LinkedCount(s.pins, id, config);
      ReadGivesLinks(s, id);
      AfterReadOK(s, pid, Some(if r.Some? then OldMp(id, false, n, r.value, false) else OldMp(id, true, n, [], false)));
    }
  }

  /** A read finds the components of that dispatcher and counts them, or finds nothing and counts
      nothing; on the attached dispatcher it finds them. */
  lemma ReadGivesLinks(s: State, id: nat)
    requires AttachedOK(s) && DispsOK(s) && PinsOK(s) && EverAttached(s, id)
    ensures var r := ReadBack(s.pins, id, s.disp[id].mp.config); var n := LinkedCount(s.pins, id, s.disp[id].mp.config);
            && (r.Some? ==> r.value == s.disp[id].mp.links && n == |r.value|)
            && (r.None? ==> n == 0)
            && (s.attached == Some(id) ==> r.Some?)
  {
    var links := s.disp[id].mp.links;
    assert DispOK(s.disp[id]);
    if id in s.pins {
      RestIsPart(s.pins[id], links);
    }
    ReadBackAllOrNothing(s.pins, id, links);
    RestLinksAllOrNone(s.pins, id, links);
    if s.attached == Some(id) {
      ReadBackExact(s.pins, id, links);
      forall c | c in links
        ensures XDP_DISPATCHER_RETVAL !in c.chainCalls
      {
        assert CallerBitsOnly(c);
      }
    }
  }

  // ---------------------------------------------------------------------------
  // Starting an operation

  lemma StartStep(s: State, pid: nat, op: Op, s': State)
    requires Inv(s) && Step(s, Start(pid, op)) == Some(s')
    ensures Inv(s')
  {
    StartProcs(s, pid, op, s');
    StartDetached(s, pid, op, s');
    StartIds(s, pid, op, s');
    StartRest(s, pid, op, s');
  }

  lemma StartProcs(s: State, pid: nat, op: Op, s': State)
    requires forall q | q in s.procs :: ProcOK(s, q, s.procs[q])
    requires Step(s, Start(pid, op)) == Some(s')
    ensures forall q | q in s'.procs :: ProcOK(s', q, s'.procs[q])
  {
    hide WellFormedOp, PhaseOK;
    assert forall q :: Frame(s, s', q);
    assert PhaseOK(s', pid, s'.procs[pid]) by {
      StartPhase(s', pid);
    }
    KeepProcs(s, s', pid);
  }

  lemma StartDetached(s: State, pid: nat, op: Op, s': State)
    requires DetachedOK(s) && Step(s, Start(pid, op)) == Some(s')
    ensures DetachedOK(s')
  {
    hide WellFormedOp, ReqIds, IdSet, IdsOf;
    forall q | q in s'.procs && s'.procs[q].committed && s'.procs[q].op.Detach?
      ensures GoneFor(s', s'.procs[q].op.ids)
    {
      assert GoneFor(s, s.procs[q].op.ids);
    }
  }

  lemma StartPhase(s': State, pid: nat)
    requires pid in s'.procs
    requires s'.procs[pid].phase == Query(0, None) || s'.procs[pid].phase == Done(Some(EINVAL))
    ensures PhaseOK(s', pid, s'.procs[pid])
  {
  }

  lemma StartIds(s: State, pid: nat, op: Op, s': State)
    requires DispsOK(s) && IdsOK(s) && RequestsPrivate(s)
    requires Step(s, Start(pid, op)) == Some(s')
    ensures IdsOK(s') && RequestsPrivate(s')
  {
    hide WellFormedOp, ReqIds, IdSet;
    forall d | d in s.disp
      ensures d !in ReqIds(op) && IdSet(s.disp[d].mp.links) !! ReqIds(op)
    {
      assert d in s.ids;
    }
  }

  lemma StartRest(s: State, pid: nat, op: Op, s': State)
    requires AttachedOK(s) && DispsOK(s) && CreatorsOK(s) && PinsOK(s) && HistoryOK(s)
    requires Step(s, Start(pid, op)) == Some(s')
    ensures AttachedOK(s') && DispsOK(s') && CreatorsOK(s') && PinsOK(s') && HistoryOK(s')
  {
    hide AttachedOK, DispsOK, CreatorsOK, PinsOK, HistoryOK, ReqIds, WellFormedOp;
    StartHistory(s, pid, op, s');
    StartDisps(s, pid, op, s');
  }

  lemma StartHistory(s: State, pid: nat, op: Op, s': State)
    requires HistoryOK(s) && Step(s, Start(pid, op)) == Some(s')
    ensures HistoryOK(s')
  {
    hide ReqIds, WellFormedOp, Chained, FaithfulUnlessFault, CommitsBy;
    assert Current(s') == Current(s);
  }

  lemma StartDisps(s: State, pid: nat, op: Op, s': State)
    requires AttachedOK(s) && DispsOK(s) && CreatorsOK(s) && PinsOK(s)
    requires Step(s, Start(pid, op)) == Some(s')
    ensures AttachedOK(s') && DispsOK(s') && CreatorsOK(s') && PinsOK(s')
  {
    hide DispOK, ReqIds, WellFormedOp, IsRest, PinDir;
    assert forall d :: EverAttached(s', d) <==> EverAttached(s, d);
  }

  // ---------------------------------------------------------------------------
  // Loading a new dispatcher

  ghost predicate FromOldOrRequest(s: State, p: Proc, o: Option<OldMp>, id: nat) {
    id in ReqIds(p.op) || (o.Some? && !o.value.legacy && o.value.id in s.disp && id in IdSet(s.disp[o.value.id].mp.links))
  }

  lemma InputComponents(o: Option<OldMp>, p: Proc)
    ensures Components(BuildInput(o, p)) == Apply(OldList(o), p.op)
    ensures |BuildInput(o, p)| == |Apply(OldList(o), p.op)|
  {
    if p.op.Detach? {
      ComponentsOfPinned(Without(OldList(o), IdsOf(p.op.ids)));
    }
  }

  /** The programs an operation works on: the ones it read, plus or minus its request. */
  lemma AppliedList(s: State, pid: nat, p: Proc, o: Option<OldMp>)
    requires DispsOK(s) && RequestsPrivate(s) && CreatorsOK(s)
    requires pid in s.procs && p == s.procs[pid] && p.phase == Build(o) && ProcOK(s, pid, p)
    ensures var list := Apply(OldList(o), p.op);
            && list != [] && DistinctIds(list)
            && (forall c | c in list :: CallerBitsOnly(c) && FromOldOrRequest(s, p, o, c.prog.id))
  {
    var list := OldList(o);
    if o.Some? && !o.value.legacy {
      assert DispOK(s.disp[o.value.id]);
      assert s.disp[o.value.id].creator != pid;
      assert ReqIds(p.op) !! IdSet(list);
    }
    match p.op {
      case Attach(progs) =>
        forall i, j | 0 <= i < |list| && 0 <= j < |progs|
          ensures list[i].prog.id != progs[j].prog.id
        {
          assert list[i] in list && progs[j] in progs;
          assert list[i].prog.id in IdSet(list) && progs[j].prog.id in ReqIds(p.op);
        }
      case Detach(ids) =>
        DistinctIdCount(ids);
        RemovalCount(list, IdsOf(ids));
        WithoutDistinct(list, IdsOf(ids));
        WithoutMembers(list, IdsOf(ids));
    }
  }

  lemma NewDisp(s: State, pid: nat, p: Proc, o: Option<OldMp>, d: nat, order: seq<Entry>, s': State)
    requires DispsOK(s) && RequestsPrivate(s) && CreatorsOK(s)
    requires pid in s.procs && p == s.procs[pid] && p.phase == Build(o) && ProcOK(s, pid, p)
    requires StepBuild(s, pid, p, Load(d, order)) == Some(s')
    ensures DispOK(s'.disp[d])
    ensures Permutation(s'.disp[d].mp.links, Apply(OldList(o), p.op))
    ensures forall id | id in IdSet(s'.disp[d].mp.links) :: FromOldOrRequest(s, p, o, id)
  {
    hide RequestsPrivate, CreatorsOK, PhaseOK, FromOldOrRequest;
    var list := Apply(OldList(o), p.op);
    var links := Components(order);
    InputComponents(o, p);
    AppliedList(s, pid, p, o);
    ComponentsPermutation(BuildInput(o, p), order);
    PermutationLength(list, links);
    PermutationMember(list, links);
    PermutationDistinct(list, links);
    FreshInputHasNoCrossing(o, p);
  }

  /** A first attempt and a detach sort pinned programs and programs not loaded yet. */
  lemma FreshInputHasNoCrossing(o: Option<OldMp>, p: Proc)
    ensures !p.loaded || p.op.Detach? ==> NoCrossing(BuildInput(o, p))
  {
    if !p.loaded || p.op.Detach? {
      forall e | e in BuildInput(o, p)
        ensures NormalShape(e)
      {
      }
      NormalShapesConsistent(BuildInput(o, p));
      ConsistentIffNoCrossing(BuildInput(o, p));
    }
  }

  lemma LoadStep(s: State, pid: nat, d: nat, order: seq<Entry>, s': State)
    requires Inv(s) && pid in s.procs && s.procs[pid].phase.Build?
    requires Step(s, Act(pid, Load(d, order))) == Some(s')
    ensures Inv(s')
  {
    hide AttachedOK, DispsOK, IdsOK, RequestsPrivate, CreatorsOK, PinsOK, HistoryOK, PhaseOK, DispOK, BuildInput, QsortResult,
      FromOldOrRequest;
    var p := s.procs[pid];
    var o := p.phase.oldMp;
    NewDisp(s, pid, p, o, d, order, s');
    LoadDisps(s, pid, p, d, s');
    LoadDetached(s, pid, p, d, s');
    LoadPins(s, pid, p, d, s');
    assert SameOps(s, s');
    KeepHistory(s, s');
    LoadIds(s, pid, p, o, d, s');
    assert OldOK(s, o) by {
      BuildHasOld(s, pid, p);
    }
    if o.Some? {
      OldIdsKnown(s, o);
    }
    LoadPrivate(s, pid, p, o, d, s');
    LoadProcs(s, pid, p, o, d, s');
  }

  lemma BuildHasOld(s: State, pid: nat, p: Proc)
    requires ProcOK(s, pid, p) && p.phase.Build?
    ensures OldOK(s, p.phase.oldMp)
  {
  }

  ghost predicate LoadEffect(s: State, pid: nat, p: Proc, d: nat, s': State) {
    && pid in s.procs && p == s.procs[pid] && p.phase.Build?
    && d !in s.ids && d in s'.disp && s'.disp == s.disp[d := s'.disp[d]] && s'.disp[d].creator == pid
    && (s'.disp[d].reloaded ==> p.op.Attach? && p.retry >= 1)
    && s' == s.(disp := s'.disp, ids := s.ids + {d},
                procs := s.procs[pid := p.(phase := PinNew(p.phase.oldMp, d), loaded := true)])
  }

  lemma LoadDisps(s: State, pid: nat, p: Proc, d: nat, s': State)
    requires AttachedOK(s) && DispsOK(s)
    requires LoadEffect(s, pid, p, d, s') && DispOK(s'.disp[d])
    ensures AttachedOK(s') && DispsOK(s') && Current(s') == Current(s)
  {
    hide DispOK, PinDir;
    assert d !in s.disp;
  }

  lemma LoadDetached(s: State, pid: nat, p: Proc, d: nat, s': State)
    requires DetachedOK(s) && LoadEffect(s, pid, p, d, s') && Current(s') == Current(s)
    ensures DetachedOK(s')
  {
    hide ReqIds, IdSet, IdsOf, Current;
    forall q | q in s'.procs && s'.procs[q].committed && s'.procs[q].op.Detach?
      ensures GoneFor(s', s'.procs[q].op.ids)
    {
      assert GoneFor(s, s.procs[q].op.ids);
    }
  }

  lemma LoadPins(s: State, pid: nat, p: Proc, d: nat, s': State)
    requires AttachedOK(s) && DispsOK(s) && CreatorsOK(s) && PinsOK(s)
    requires LoadEffect(s, pid, p, d, s')
    ensures CreatorsOK(s') && PinsOK(s')
  {
    hide DispOK, PinDir, SubDirectory;
    assert d !in s.disp;
    assert forall e :: EverAttached(s', e) <==> EverAttached(s, e);
  }

  lemma OldIdsKnown(s: State, o: Option<OldMp>)
    requires DispsOK(s) && CreatorsOK(s) && OldOK(s, o) && o.Some?
    ensures s.disp[o.value.id].creator in s.procs && s.procs[s.disp[o.value.id].creator].committed
  {
    hide DispOK;
  }

  lemma LoadIds(s: State, pid: nat, p: Proc, o: Option<OldMp>, d: nat, s': State)
    requires DispsOK(s) && IdsOK(s)
    requires LoadEffect(s, pid, p, d, s') && p.phase.oldMp == o
    requires forall id | id in IdSet(s'.disp[d].mp.links) :: FromOldOrRequest(s, p, o, id)
    ensures IdsOK(s')
  {
    hide DispOK, IdSet, ReqIds;
    var newIds := IdSet(s'.disp[d].mp.links);
    forall id | id in newIds
      ensures id in s.ids && id !in s.disp
    {
      assert FromOldOrRequest(s, p, o, id);
    }
    forall e, f | e in s'.disp && f in s'.disp
      ensures f !in IdSet(s'.disp[e].mp.links)
    {
      assert IdSet(s'.disp[e].mp.links) <= s.ids;
      if f != d && e != d {
        assert f in s.disp && e in s.disp;
      }
    }
  }

  lemma LoadPrivate(s: State, pid: nat, p: Proc, o: Option<OldMp>, d: nat, s': State)
    requires IdsOK(s) && RequestsPrivate(s)
    requires LoadEffect(s, pid, p, d, s') && p.phase.oldMp == o
    requires o.Some? && o.value.id in s.disp ==>
               s.disp[o.value.id].creator in s.procs && s.procs[s.disp[o.value.id].creator].committed
    requires forall id | id in IdSet(s'.disp[d].mp.links) :: FromOldOrRequest(s, p, o, id)
    ensures RequestsPrivate(s')
  {
    hide DispOK, IdSet, ReqIds;
    forall q, e | q in s'.procs && e in s'.disp && !s'.procs[q].committed && s'.disp[e].creator != q
      ensures ReqIds(s'.procs[q].op) !! IdSet(s'.disp[e].mp.links)
    {
      if e == d {
        forall id | id in IdSet(s'.disp[d].mp.links)
          ensures id !in ReqIds(s'.procs[q].op)
        {
          assert FromOldOrRequest(s, p, o, id);
        }
      }
    }
  }

  lemma LoadProcs(s: State, pid: nat, p: Proc, o: Option<OldMp>, d: nat, s': State)
    requires forall q | q in s.procs :: ProcOK(s, q, s.procs[q])
    requires AttachedOK(s) && DispsOK(s) && PinsOK(s)
    requires LoadEffect(s, pid, p, d, s') && p.phase.oldMp == o
    requires BuiltFor(s', p.op, o, d)
    ensures forall q | q in s'.procs :: ProcOK(s', q, s'.procs[q])
  {
    hide DispOK, BuiltFor, WellFormedOp, PinDir;
    assert d !in s.disp && d !in s.pins;
    assert forall q :: Frame(s, s', q);
    assert ProcOK(s, pid, p);
    KeepProcs(s, s', pid);
  }

  lemma BuildStep(s: State, pid: nat, c: Choice, s': State)
    requires Inv(s) && pid in s.procs && s.procs[pid].phase.Build?
    requires Step(s, Act(pid, c)) == Some(s')
    ensures Inv(s')
  {
    hide AttachedOK, DispsOK, IdsOK, RequestsPrivate, CreatorsOK, PinsOK, HistoryOK, DetachedOK, WellFormedOp, BuildInput,
      QsortResult;
    match c {
      case Load(d, order) => LoadStep(s, pid, d, order, s');
      case LoadFails(_) => LocalStep(s, pid, s'.procs[pid]);
      case Normal => LocalStep(s, pid, s'.procs[pid]);
      case _ =>
    }
  }

  // ---------------------------------------------------------------------------
  // Steps on the pins

  ghost predicate PinEffect(s: State, pid: nat, d: nat, p': Proc, s': State) {
    && pid in s.procs && p'.op == s.procs[pid].op && p'.committed == s.procs[pid].committed
    && p'.retry >= s.procs[pid].retry
    && s' == s.(pins := s'.pins, abandoned := s'.abandoned, procs := s.procs[pid := p'])
    && (s'.abandoned == s.abandoned || s'.abandoned == s.abandoned + {d})
    && (forall e | e != d :: (e in s.pins <==> e in s'.pins) && (e in s.pins ==> s'.pins[e] == s.pins[e]))
  }

  lemma PinFrame(s: State, pid: nat, d: nat, p': Proc, s': State)
    requires Inv(s) && PinEffect(s, pid, d, p', s') && s.attached != Some(d)
    requires d in s.disp && (s.disp[d].creator == pid || EverAttached(s, d))
    requires ProcOK(s', pid, p') && PinsOK(s')
    ensures Inv(s')
  {
    hide AttachedOK, DispsOK, IdsOK, RequestsPrivate, CreatorsOK, PinsOK, HistoryOK, DetachedOK, PhaseOK, WellFormedOp, Holds,
      Again;
    assert forall e :: EverAttached(s', e) <==> EverAttached(s, e);
    assert forall q | q != pid :: Frame(s, s', q);
    KeepProcs(s, s', pid);
    KeepDisps(s, s');
    KeepIds(s, s');
    KeepPrivate(s, s');
    KeepCreators(s, s');
    KeepHistory(s, s');
    KeepDetached(s, s');
  }

  lemma PinsAfter(s: State, pid: nat, d: nat, p': Proc, s': State)
    requires PinsOK(s) && PinEffect(s, pid, d, p', s')
    requires d in s'.pins ==> d in s.disp && (d !in s'.abandoned ==> IsRest(s'.pins[d], s.disp[d].mp.links))
    requires d in s'.pins ==> EverAttached(s, d) || d in s'.abandoned || (s.disp[d].creator == pid && Holds(p', d))
    requires d in s'.abandoned ==> d in s'.pins && d in s.disp && !EverAttached(s, d)
    requires forall e | e != d && Holds(s.procs[pid], e) :: e !in s.pins || Holds(p', e)
    ensures PinsOK(s')
  {
    hide IsRest;
    assert forall e :: EverAttached(s', e) <==> EverAttached(s, e);
    forall e | e in s'.pins
      ensures HasOwner(s', e) && (e !in s'.abandoned ==> IsRest(s'.pins[e], s'.disp[e].mp.links))
    {
      if e != d {
        assert HasOwner(s, e);
      }
    }
  }

  /** What the pin invariant says of one dispatcher. */
  lemma PinsOf(s: State, d: nat)
    requires PinsOK(s)
    ensures d in s.pins ==> d in s.disp && (d !in s.abandoned ==> IsRest(s.pins[d], s.disp[d].mp.links))
    ensures d in s.abandoned ==> d in s.pins && !EverAttached(s, d)
  {
    hide IsRest;
  }

  lemma PinWorks(s: State, pid: nat, s': State)
    requires Inv(s) && pid in s.procs && s.procs[pid].phase.PinNew?
    requires StepPinNew(s, pid, s.procs[pid], Normal) == Some(s')
    ensures Inv(s')
  {
    hide AttachedOK, DispsOK, IdsOK, RequestsPrivate, CreatorsOK, PinsOK, HistoryOK, DetachedOK, WellFormedOp, BuiltFor,
      OldOK, PinDir, IsRest;
    var p := s.procs[pid];
    var d := p.phase.d;
    PinsOf(s, d);
    WholeIsRest(s.disp[d].mp.links);
    assert OldOK(s', p.phase.oldMp) by {
      OldFrame(s, s', p.phase.oldMp);
    }
    assert BuiltFor(s', p.op, p.phase.oldMp, d) by {
      BuiltFrame(s, s', p.op, p.phase.oldMp, d);
    }
    PinsAfter(s, pid, d, s'.procs[pid], s');
    PinFrame(s, pid, d, s'.procs[pid], s');
  }

  lemma PinFailsStep(s: State, pid: nat, c: Choice, s': State)
    requires Inv(s) && pid in s.procs && s.procs[pid].phase.PinNew? && c.PinFails?
    requires StepPinNew(s, pid, s.procs[pid], c) == Some(s')
    ensures Inv(s')
  {
    hide AttachedOK, DispsOK, IdsOK, RequestsPrivate, CreatorsOK, PinsOK, HistoryOK, DetachedOK, WellFormedOp, BuiltFor,
      OldOK, PinDir, IsRest, Part, LeftOver;
    var d := s.procs[pid].phase.d;
    PinsOf(s, d);
    PinsAfter(s, pid, d, s'.procs[pid], s');
    PinFrame(s, pid, d, s'.procs[pid], s');
  }

  lemma PinNewStep(s: State, pid: nat, c: Choice, s': State)
    requires Inv(s) && pid in s.procs && s.procs[pid].phase.PinNew?
    requires Step(s, Act(pid, c)) == Some(s')
    ensures Inv(s')
  {
    hide AttachedOK, DispsOK, IdsOK, RequestsPrivate, CreatorsOK, PinsOK, HistoryOK, DetachedOK, WellFormedOp, BuiltFor,
      OldOK, PinDir, IsRest, Part, LeftOver;
    if c.Refused? {
      LocalStep(s, pid, s'.procs[pid]);
    } else if c.PinFails? {
      PinFailsStep(s, pid, c, s');
    } else {
      PinWorks(s, pid, s');
    }
  }

  lemma OldFrame(s: State, s': State, o: Option<OldMp>)
    requires OldOK(s, o) && s'.disp == s.disp && s'.attached == s.attached && s'.retired == s.retired
    ensures OldOK(s', o)
  {
  }

  lemma BuiltFrame(s: State, s': State, op: Op, o: Option<OldMp>, d: nat)
    requires BuiltFor(s, op, o, d) && s'.disp == s.disp
    ensures BuiltFor(s', op, o, d)
  {
  }

  lemma UnpinNewStep(s: State, pid: nat, c: Choice, s': State)
    requires Inv(s) && pid in s.procs && s.procs[pid].phase.UnpinNew?
    requires Step(s, Act(pid, c)) == Some(s')
    ensures Inv(s')
  {
    hide AttachedOK, DispsOK, IdsOK, RequestsPrivate, CreatorsOK, PinsOK, HistoryOK, DetachedOK, WellFormedOp, PinDir, IsRest,
      Trim;
    var p := s.procs[pid];
    var d := p.phase.d;
    PinsOf(s, d);
    PinsAfter(s, pid, d, s'.procs[pid], s');
    PinFrame(s, pid, d, s'.procs[pid], s');
  }

  lemma UnpinOldStep(s: State, pid: nat, c: Choice, s': State)
    requires Inv(s) && pid in s.procs && s.procs[pid].phase.UnpinOld?
    requires Step(s, Act(pid, c)) == Some(s')
    ensures Inv(s')
  {
    hide IdsOK, RequestsPrivate, CreatorsOK, HistoryOK, PinsOK, DetachedOK, WellFormedOp, PinDir, DispOK, IsRest, Trim;
    var p := s.procs[pid];
    var d := p.phase.o.id;
    assert EverAttached(s, d) && s.attached != Some(d);
    PinsOf(s, d);
    if c.UnpinFails? {
      TrimRest(s.pins[d], s.disp[d].mp.links, c.gone);
    } else if d in s.pins {
      assert IsRest(s.pins[d], s.disp[d].mp.links);
    }
    PinsAfter(s, pid, d, s'.procs[pid], s');
    PinFrame(s, pid, d, s'.procs[pid], s');
  }

  // ---------------------------------------------------------------------------
  // The swap

  lemma FailedSwap(s: State, pid: nat, err: Errno)
    requires Inv(s) && pid in s.procs && s.procs[pid].phase.Swap?
    ensures Inv(With(s, pid, AfterFailedSwap(s.procs[pid], s.procs[pid].phase.newDisp, err)))
  {
    hide AttachedOK, DispsOK, IdsOK, RequestsPrivate, CreatorsOK, PinsOK, HistoryOK, DetachedOK, WellFormedOp, BuiltFor,
      OldOK, PinDir;
    LocalStep(s, pid, AfterFailedSwap(s.procs[pid], s.procs[pid].phase.newDisp, err));
  }

  ghost predicate Swapping(s: State, pid: nat, p: Proc, o: Option<OldMp>, nd: Option<nat>) {
    pid in s.procs && p == s.procs[pid] && p.phase == Swap(o, nd) && ProcOK(s, pid, p) && s.attached == Expected(o)
  }

  /** The swap does what the operation asks for, unless it rests on a failed read of
      pins that were there; then it never does. */
  lemma CommitFaithful(s: State, pid: nat, p: Proc, o: Option<OldMp>, nd: Option<nat>)
    requires AttachedOK(s) && DispsOK(s) && IdsOK(s) && Swapping(s, pid, p, o, nd)
    ensures Permutation(LinksOf(s, nd), Apply(Current(s), p.op)) <==> !(o.Some? && o.value.fault)
  {
    if o.Some? && o.value.fault {
      var id := o.value.id;
      assert o.value.legacy && DispOK(s.disp[id]);
      var before := s.disp[id].mp.links;
      if nd.Some? {
        assert p.op.Attach?;
        PermutationLength(LinksOf(s, nd), Apply([], p.op));
        if Permutation(LinksOf(s, nd), Apply(before, p.op)) {
          PermutationLength(LinksOf(s, nd), Apply(before, p.op));
        }
      } else {
        WithoutMembers(before, IdsOf(p.op.ids));
        assert before[0] in before && before[0].prog.id in IdSet(before);
        assert before[0] in Apply(before, p.op);
      }
    } else if o.Some? {
      assert !o.value.legacy;
    }
  }

  lemma ExtendChain(h: seq<Commit>, c: Commit)
    requires Chained(h) && c.before == ListAfter(h, |h|)
    ensures Chained(h + [c]) && ListAfter(h + [c], |h| + 1) == c.after
  {
    var h' := h + [c];
    forall i | 0 <= i < |h'|
      ensures h'[i].before == ListAfter(h', i)
    {
      assert ListAfter(h', i) == ListAfter(h, i);
      if i < |h| {
        assert h'[i] == h[i];
      }
    }
  }

  lemma ExtendFaithful(h: seq<Commit>, c: Commit)
    requires FaithfulUnlessFault(h) && (Faithful(c) <==> !c.fault)
    ensures FaithfulUnlessFault(h + [c])
  {
    hide Faithful;
  }

  lemma ExtendCommits(h: seq<Commit>, c: Commit)
    ensures forall q :: CommitsBy(h + [c], q) == CommitsBy(h, q) + if c.pid == q then 1 else 0
  {
    assert (h + [c])[..|h|] == h;
  }

  lemma CommitHistory(s: State, pid: nat, p: Proc, o: Option<OldMp>, nd: Option<nat>, s': State)
    requires AttachedOK(s) && DispsOK(s) && IdsOK(s) && HistoryOK(s) && Swapping(s, pid, p, o, nd)
    requires !p.committed && s' == DoCommit(s, pid, p, o, nd)
    ensures HistoryOK(s')
  {
    hide AttachedOK, DispsOK, IdsOK, ProcOK, Apply, Chained, FaithfulUnlessFault, CommitsBy;
    CommitFaithful(s, pid, p, o, nd);
    var c := s'.history[|s.history|];
    ExtendChain(s.history, c);
    ExtendFaithful(s.history, c);
    ExtendCommits(s.history, c);
  }

  lemma CommitDisps(s: State, pid: nat, p: Proc, o: Option<OldMp>, nd: Option<nat>, s': State)
    requires AttachedOK(s) && DispsOK(s) && Swapping(s, pid, p, o, nd)
    requires s' == DoCommit(s, pid, p, o, nd)
    ensures AttachedOK(s') && DispsOK(s')
    ensures forall e: nat | EverAttached(s, e) :: EverAttached(s', e)
    ensures forall e: nat | EverAttached(s', e) :: EverAttached(s, e) || nd == Some(e)
  {
    hide DispOK, PinDir, BuiltFor, WellFormedOp;
  }

  lemma CommitRequests(s: State, pid: nat, p: Proc, s': State)
    requires IdsOK(s) && RequestsPrivate(s) && pid in s.procs && p.op == s.procs[pid].op && p.committed
    requires s'.disp == s.disp && s'.ids == s.ids && s'.procs == s.procs[pid := p]
    ensures IdsOK(s') && RequestsPrivate(s')
  {
    hide ReqIds, IdSet;
  }

  lemma CommitPins(s: State, pid: nat, p: Proc, o: Option<OldMp>, nd: Option<nat>, s': State)
    requires CreatorsOK(s) && PinsOK(s) && Swapping(s, pid, p, o, nd)
    requires s' == DoCommit(s, pid, p, o, nd)
    requires forall e: nat | EverAttached(s, e) :: EverAttached(s', e)
    requires forall e: nat | EverAttached(s', e) :: EverAttached(s, e) || nd == Some(e)
    ensures CreatorsOK(s') && PinsOK(s')
  {
    hide PinDir, SubDirectory, BuiltFor, WellFormedOp, OldOK;
  }

  lemma CommitProcs(s: State, pid: nat, p: Proc, o: Option<OldMp>, nd: Option<nat>, s': State)
    requires forall q | q in s.procs :: ProcOK(s, q, s.procs[q])
    requires Swapping(s, pid, p, o, nd) && s' == DoCommit(s, pid, p, o, nd)
    requires forall e: nat | EverAttached(s, e) :: EverAttached(s', e)
    ensures forall q | q in s'.procs :: ProcOK(s', q, s'.procs[q])
  {
    hide PinDir, BuiltFor, WellFormedOp;
    forall q | q in s.procs && q != pid
      ensures Frame(s, s', q)
    {
      forall d | Unpublished(s, q, d)
        ensures Unpublished(s', q, d)
      {
      }
    }
    KeepProcs(s, s', pid);
  }

  /** What a swap installs comes from what was attached or from its request. */
  lemma CommitSources(s: State, pid: nat, p: Proc, o: Option<OldMp>, nd: Option<nat>)
    requires AttachedOK(s) && Swapping(s, pid, p, o, nd)
    ensures IdSet(LinksOf(s, nd)) <= IdSet(Current(s)) + ReqIds(p.op)
    ensures p.op.Detach? ==> IdSet(LinksOf(s, nd)) !! IdsOf(p.op.ids)
  {
    hide PinDir, WellFormedOp, IsRest;
    var before, after := OldList(o), LinksOf(s, nd);
    if nd.Some? {
      PermutationMember(after, Apply(before, p.op));
      if p.op.Detach? {
        WithoutMembers(before, IdsOf(p.op.ids));
      }
    }
  }

  /** The programs a committing detach asks for. */
  lemma DetachTakesAttached(s: State, pid: nat, p: Proc, o: Option<OldMp>, nd: Option<nat>)
    requires AttachedOK(s) && DispsOK(s) && IdsOK(s) && RequestsPrivate(s) && CreatorsOK(s) && Swapping(s, pid, p, o, nd)
    requires p.op.Detach?
    ensures o.Some? && IdsOf(p.op.ids) <= s.ids
    ensures forall d | d in s.disp && d in IdsOf(p.op.ids) :: d == o.value.id
    ensures forall q | q in s.procs && !s.procs[q].committed :: ReqIds(s.procs[q].op) !! IdsOf(p.op.ids)
  {
    hide PinDir, WellFormedOp, IsRest, DispOK, BuiltFor, ReqIds, IdSet;
    var id := o.value.id;
    assert s.procs[s.disp[id].creator].committed;
    if o.value.legacy {
      assert IdsOf(p.op.ids) == {id};
    } else {
      assert IdsOf(p.op.ids) <= IdSet(s.disp[id].mp.links);
    }
  }

  lemma CommittedList(s: State, pid: nat, p: Proc, o: Option<OldMp>, nd: Option<nat>)
    requires Swapping(s, pid, p, o, nd)
    ensures Current(DoCommit(s, pid, p, o, nd)) == LinksOf(s, nd)
  {
    hide PinDir, BuiltFor, OldOK, WellFormedOp;
  }

  lemma CommitDetached(s: State, pid: nat, p: Proc, o: Option<OldMp>, nd: Option<nat>, s': State)
    requires AttachedOK(s) && DispsOK(s) && IdsOK(s) && RequestsPrivate(s) && CreatorsOK(s) && DetachedOK(s)
    requires Swapping(s, pid, p, o, nd) && !p.committed && s' == DoCommit(s, pid, p, o, nd)
    ensures DetachedOK(s')
  {
    hide AttachedOK, DispsOK, IdsOK, RequestsPrivate, CreatorsOK, ProcOK, IdsOf, IdSet, ReqIds, Current, LinksOf, Expected;
    CommitSources(s, pid, p, o, nd);
    CommittedList(s, pid, p, o, nd);
    if p.op.Detach? {
      DetachTakesAttached(s, pid, p, o, nd);
    }
    forall q | q in s'.procs && s'.procs[q].committed && s'.procs[q].op.Detach?
      ensures GoneFor(s', s'.procs[q].op.ids)
    {
      if q != pid {
        assert GoneFor(s, s.procs[q].op.ids);
      }
    }
  }

  lemma SwapStep(s: State, pid: nat, c: Choice, s': State)
    requires Inv(s) && pid in s.procs && s.procs[pid].phase.Swap?
    requires Step(s, Act(pid, c)) == Some(s')
    ensures Inv(s')
  {
    hide AttachedOK, DispsOK, IdsOK, RequestsPrivate, CreatorsOK, PinsOK, HistoryOK, PhaseOK, WellFormedOp;
    var p := s.procs[pid];
    var o, nd := p.phase.oldMp, p.phase.newDisp;
    if c == Normal && s.attached == Expected(o) {
      CommitHistory(s, pid, p, o, nd, s');
      CommitDisps(s, pid, p, o, nd, s');
      CommitRequests(s, pid, s'.procs[pid], s');
      CommitPins(s, pid, p, o, nd, s');
      CommitProcs(s, pid, p, o, nd, s');
      CommitDetached(s, pid, p, o, nd, s');
    } else if c == Normal {
      FailedSwap(s, pid, EAGAIN);
    } else {
      FailedSwap(s, pid, c.err);
    }
  }

  // ---------------------------------------------------------------------------
  // Every reachable state

  lemma InitInv()
    ensures Inv(Init)
  {
  }

  lemma StepInv(s: State, a: Action, s': State)
    requires Inv(s) && Step(s, a) == Some(s')
    ensures Inv(s')
  {
    hide Inv;
    match a {
      case Start(pid, op) => StartStep(s, pid, op, s');
      case Act(pid, c) =>
        match s.procs[pid].phase {
          case Query(_, _) => QueryStep(s, pid, c, s');
          case GetFd(_, _) => GetFdStep(s, pid, c, s');
          case ReadPins(_) => ReadPinsStep(s, pid, c, s');
          case Build(_) => BuildStep(s, pid, c, s');
          case PinNew(_, _) => PinNewStep(s, pid, c, s');
          case Swap(_, _) => SwapStep(s, pid, c, s');
          case UnpinNew(_, _) => UnpinNewStep(s, pid, c, s');
          case UnpinOld(_, _) => UnpinOldStep(s, pid, c, s');
          case Done(_) =>
          case Astray =>
        }
    }
  }

  lemma {:induction false} ReachableInv(acts: seq<Action>)
    requires Exec(acts).Some?
    ensures Inv(Exec(acts).value)
  {
    if acts == [] {
      InitInv();
    } else {
      var before := acts[..|acts| - 1];
      ReachableInv(before);
      StepInv(Exec(before).value, acts[|acts| - 1], Exec(acts).value);
    }
  }
}
