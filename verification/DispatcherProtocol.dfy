/** Any number of processes running xdp_program__attach_multi() and
    xdp_program__detach_multi() on one interface, as a machine whose steps are the
    kernel calls and the sections under the bpffs lock. */
module DispatcherProtocol {
  import opened Common
  import opened DispatcherOrder
  import opened Dispatcher
  import opened DispatcherGenerate

  const MAX_RETRY: nat := 10

  datatype Op = Attach(progs: seq<Component>) | Detach(ids: seq<nat>)

  /** The old_mp of an operation: the dispatcher id that was read, whether it counts as a
      legacy program, num_links and the components. `fault` marks a read that failed although
      the pins were there. */
  datatype OldMp = OldMp(id: nat, legacy: bool, count: nat, list: seq<Component>, fault: bool)

  datatype Phase =
    | Query(inner: nat, progId: Option<nat>)
    | GetFd(inner: nat, id: nat)
    | ReadPins(id: nat)
    | Build(oldMp: Option<OldMp>)
    | PinNew(oldMp: Option<OldMp>, d: nat)
    | Swap(oldMp: Option<OldMp>, newDisp: Option<nat>)
    | UnpinNew(d: nat, err: Errno)
    | UnpinOld(o: OldMp, full: bool)
    | Done(result: Option<Errno>)
    | Astray

  /** Astray: the process has read past the end of its request; nothing is said about what it
      does from then on, and the machine lets it do nothing.
      `loaded`: a failed attempt has already loaded the programs of the request. */
  datatype Proc = Proc(op: Op, retry: nat, loaded: bool, phase: Phase, committed: bool)

  /** A dispatcher in the kernel, with the list that was sorted to build it; `reloaded` when that
      list holds programs loaded by an earlier attempt. */
  datatype Disp = Disp(creator: nat, mp: Multiprog, input: seq<Entry>, order: seq<Entry>, reloaded: bool)

  datatype Commit = Commit(pid: nat, op: Op, before: seq<Component>, after: seq<Component>, fault: bool)

  /** `retired`: dispatchers that were attached before; `abandoned`: dispatchers whose pins their
      creator tried to remove again and could not. */
  datatype State = State(
    attached: Option<nat>,
    disp: map<nat, Disp>,
    pins: map<nat, Directory>,
    retired: set<nat>,
    abandoned: set<nat>,
    ids: set<nat>,
    procs: map<nat, Proc>,
    history: seq<Commit>)

  const Init := State(None, map[], map[], {}, {}, {}, map[], [])

  /** What the kernel and the file system do at a step. PinsUnreadable: the read fails after so many
      programs, although the pins are there. AlreadyLoaded: the error the kernel gives an attach that
      expects an empty interface. PinFails: pinning fails, and the clean-up after it leaves these files.
      UnpinFails: the removal stops after so many files. Failing calls give EAGAIN or another error. */
  datatype Choice =
    | Normal
    | ReadError
    | FdGone
    | PinsUnreadable(after: nat)
    | Load(d: nat, order: seq<Entry>)
    | LoadFails(err: Errno)
    | PinFails(left: set<PinName>, err: Errno)
    | Refused(err: Errno)
    | AlreadyLoaded(err: Errno)
    | UnpinFails(gone: nat, err: Errno)

  datatype Action = Start(pid: nat, op: Op) | Act(pid: nat, choice: Choice)

  // ---------------------------------------------------------------------------
  // Operations

  function IdsOf(ids: seq<nat>): set<nat> {
    set i | i in ids
  }

  ghost predicate WellFormedOp(op: Op) {
    match op
    case Attach(progs) => DistinctIds(progs) && forall c | c in progs :: CallerBitsOnly(c)
    case Detach(ids) => forall i, j | 0 <= i < j < |ids| :: ids[i] != ids[j]
  }

  /** What an operation means for the list of attached programs, up to order. */
  function Apply(list: seq<Component>, op: Op): seq<Component> {
    match op
    case Attach(progs) => list + progs
    case Detach(ids) => Without(list, IdsOf(ids))
  }

  function ReqIds(op: Op): set<nat> {
    match op
    case Attach(progs) => set c | c in progs :: c.prog.id
    case Detach(ids) => {}
  }

  function OldList(o: Option<OldMp>): seq<Component> {
    if o.Some? then o.value.list else []
  }

  /** What generate() is told about the dispatcher that was read. */
  function ReadOf(o: Option<OldMp>): Option<OldRead> {
    if o.Some? then Some(OldRead(o.value.count, o.value.list)) else None
  }

  /** num_new_progs is the number of programs there are to sort. */
  predicate CountExact(o: Option<OldMp>) {
    o.Some? ==> o.value.count == |o.value.list|
  }

  /** num_new_progs of an operation. */
  function Wanted(o: Option<OldMp>, op: Op): int {
    var n := if o.Some? then o.value.count else 0;
    match op
    case Attach(progs) => n + |progs|
    case Detach(ids) => n - |ids|
  }

  /** The list given to qsort(). */
  function BuildInput(o: Option<OldMp>, p: Proc): seq<Entry> {
    match p.op
    case Attach(progs) =>
      Pinned(OldList(o)) + seq(|progs|, i requires 0 <= i < |progs| => Entry(progs[i], p.loaded, true))
    case Detach(ids) => Pinned(Without(OldList(o), IdsOf(ids)))
  }

  /** The first pass of detach_multi. */
  function DetachCheck(ids: seq<nat>, list: seq<Component>): Option<Errno> {
    if ids == [] then None
    else if ids[0] == 0 then Some(EINVAL)
    else if !exists c :: c in list && c.prog.id == ids[0] then Some(ENOENT)
    else DetachCheck(ids[1..], list)
  }

  // ---------------------------------------------------------------------------
  // Steps of one process

  function At(p: Proc, ph: Phase): Proc {
    p.(phase := ph)
  }

  /** Where an operation goes once xdp_multiprog__get_from_ifindex() has returned. */
  function AfterRead(p: Proc, o: Option<OldMp>): Proc {
    match p.op
    case Attach(_) => At(p, Build(o))
    case Detach(ids) =>
      if o.None? then At(p, Done(Some(ENOENT)))
      else if o.value.legacy then
        if |ids| != 1 || ids[0] == 0 then At(p, Done(Some(EINVAL)))
        else if ids[0] != o.value.id then At(p, Done(Some(ENOENT)))
        else At(p, Swap(o, None))
      else
        var err := DetachCheck(ids, o.value.list);
        if err.Some? then At(p, Done(err))
        else if |ids| == |o.value.list| then At(p, Swap(o, None))
        else At(p, Build(o))
  }

  /** A lost race: start over, at most MAX_RETRY times. */
  function AfterAgain(p: Proc): Proc {
    if p.retry + 1 > MAX_RETRY then p.(retry := p.retry + 1, phase := Done(Some(EBUSY)))
    else p.(retry := p.retry + 1, phase := Query(0, None))
  }

  predicate CallError(err: Errno) {
    err == EAGAIN || err == OtherErr
  }

  /** A failed call outside the swap: detach_multi starts over when the error is EAGAIN. */
  function AfterError(p: Proc, err: Errno): Proc {
    if err == EAGAIN && p.op.Detach? then AfterAgain(p) else At(p, Done(Some(err)))
  }

  function AfterFailedSwap(p: Proc, nd: Option<nat>, err: Errno): Proc {
    if nd.Some? then At(p, UnpinNew(nd.value, err))
    else if err == EAGAIN then AfterAgain(p)
    else At(p, Done(Some(err)))
  }

  function With(s: State, pid: nat, p: Proc): State {
    s.(procs := s.procs[pid := p])
  }

  function Current(s: State): seq<Component> {
    if s.attached.Some? && s.attached.value in s.disp then s.disp[s.attached.value].mp.links else []
  }

  function Expected(o: Option<OldMp>): Option<nat> {
    if o.Some? then Some(o.value.id) else None
  }

  function LinksOf(s: State, nd: Option<nat>): seq<Component> {
    if nd.Some? && nd.value in s.disp then s.disp[nd.value].mp.links else []
  }

  function DoCommit(s: State, pid: nat, p: Proc, o: Option<OldMp>, nd: Option<nat>): State {
    var ph := if o.Some? then UnpinOld(o.value, nd.None?) else Done(None);
    var c := Commit(pid, p.op, Current(s), LinksOf(s, nd), o.Some? && o.value.fault);
    s.(attached := nd,
       retired := if o.Some? then s.retired + {o.value.id} else s.retired,
       procs := s.procs[pid := p.(phase := ph, committed := true)],
       history := s.history + [c])
  }

  /** A step is a move of one process. */
  ghost predicate Moves(s: State, pid: nat, r: Option<State>) {
    r.Some? ==> pid in r.value.procs && r.value.procs == s.procs[pid := r.value.procs[pid]]
  }

  ghost function StepQuery(s: State, pid: nat, p: Proc, c: Choice): (r: Option<State>)
    requires p.phase.Query?
    ensures Moves(s, pid, r)
  {
    match c
    case Normal =>
      // XDP_ATTACHED_NONE leaves the prog_id of an earlier round in place
      var id := if s.attached.Some? then s.attached else p.phase.progId;
      Some(With(s, pid, if id.None? then AfterRead(p, None) else At(p, GetFd(p.phase.inner, id.value))))
    case ReadError => Some(With(s, pid, AfterRead(p, None)))
    case _ => None
  }

  ghost function StepGetFd(s: State, pid: nat, p: Proc, c: Choice): (r: Option<State>)
    requires p.phase.GetFd?
    ensures Moves(s, pid, r)
  {
    match c
    case Normal => Some(With(s, pid, At(p, ReadPins(p.phase.id))))
    case FdGone =>
      if s.attached == Some(p.phase.id) then None
      else if p.phase.inner + 1 > MAX_RETRY then Some(With(s, pid, AfterRead(p, None)))
      else Some(With(s, pid, At(p, Query(p.phase.inner + 1, Some(p.phase.id)))))
    case ReadError => Some(With(s, pid, AfterRead(p, None)))
    case _ => None
  }

  ghost function StepReadPins(s: State, pid: nat, p: Proc, c: Choice): (r: Option<State>)
    requires p.phase.ReadPins?
    ensures Moves(s, pid, r)
  {
    var id := p.phase.id;
    if id !in s.disp || !ConfigShape(s.disp[id].mp.config) then None
    else
      var config := s.disp[id].mp.config;
      var n := LinkedCount(s.pins, id, config);
      match c
      case Normal =>
        var r := ReadBack(s.pins, id, config);
        Some(With(s, pid, AfterRead(p, Some(
          if r.Some? then OldMp(id, false, n, r.value, false) else OldMp(id, true, n, [], false)))))
      case PinsUnreadable(after) =>
        if after == 0 || (after <= n && after < config.numProgsEnabled) then
          Some(With(s, pid, AfterRead(p, Some(OldMp(id, true, after, [], true)))))
        else None
      case _ => None
  }

  ghost function StepBuild(s: State, pid: nat, p: Proc, c: Choice): (r: Option<State>)
    requires p.phase.Build?
    ensures Moves(s, pid, r)
  {
    var o := p.phase.oldMp;
    var input := BuildInput(o, p);
    match c
    case Load(d, order) =>
      if d !in s.ids && CountExact(o) && |input| <= MAX_DISPATCHER_ACTIONS && QsortResult(input, order) then
        var links := Components(order);
        PermutationLength(input, order);
        Some(s.(disp := s.disp[d := Disp(pid, Multiprog(ConfigOf(links), links), input, order, p.loaded && p.op.Attach?)],
                ids := s.ids + {d},
                procs := s.procs[pid := p.(phase := PinNew(o, d), loaded := true)]))
      else None
    case LoadFails(err) =>
      if !CallError(err) then None
      else Some(With(s, pid, AfterError(p, if Wanted(o, p.op) > MAX_DISPATCHER_ACTIONS then E2BIG else err)))
    case Normal =>
      // the loop that appends the request runs past its end
      if p.op.Attach? && !CountExact(o) && Wanted(o, p.op) <= MAX_DISPATCHER_ACTIONS then
        Some(With(s, pid, At(p, Astray)))
      else None
    case _ => None
  }

  ghost function StepPinNew(s: State, pid: nat, p: Proc, c: Choice): (r: Option<State>)
    requires p.phase.PinNew?
    ensures Moves(s, pid, r)
  {
    var d := p.phase.d;
    match c
    case Normal =>
      if d in s.disp then
        Some(s.(pins := s.pins[d := PinDir(s.disp[d].mp.links)],
                procs := s.procs[pid := At(p, Swap(p.phase.oldMp, Some(d)))]))
      else None
    case Refused(err) => if CallError(err) then Some(With(s, pid, AfterError(p, err))) else None
    case PinFails(left, err) =>
      if d in s.disp && LeftOver(s.disp[d].mp.links, left) && CallError(err) then
        Some(s.(pins := s.pins[d := Part(s.disp[d].mp.links, left)], abandoned := s.abandoned + {d},
                procs := s.procs[pid := AfterError(p, err)]))
      else None
    case _ => None
  }

  ghost function StepSwap(s: State, pid: nat, p: Proc, c: Choice): (r: Option<State>)
    requires p.phase.Swap?
    ensures Moves(s, pid, r)
  {
    var o := p.phase.oldMp;
    var nd := p.phase.newDisp;
    match c
    case Normal =>
      if s.attached == Expected(o) then Some(DoCommit(s, pid, p, o, nd))
      else if o.Some? then Some(With(s, pid, AfterFailedSwap(p, nd, EAGAIN)))
      else None
    case AlreadyLoaded(err) =>
      if o.None? && s.attached.Some? && (err == EBUSY || err == EEXIST) then
        Some(With(s, pid, AfterFailedSwap(p, nd, err)))
      else None
    case Refused(err) => if CallError(err) then Some(With(s, pid, AfterFailedSwap(p, nd, err))) else None
    case _ => None
  }

  /** The result of removing the new pins is not looked at. */
  ghost function StepUnpinNew(s: State, pid: nat, p: Proc, c: Choice): (r: Option<State>)
    requires p.phase.UnpinNew?
    ensures Moves(s, pid, r)
  {
    var d := p.phase.d;
    var p' := if p.phase.err == EAGAIN then AfterAgain(p) else At(p, Done(Some(p.phase.err)));
    match c
    case Normal => Some(s.(pins := s.pins - {d}, procs := s.procs[pid := p']))
    case UnpinFails(gone, _) =>
      if d in s.pins then
        Some(s.(pins := s.pins[d := Trim(s.pins[d], gone)], abandoned := s.abandoned + {d}, procs := s.procs[pid := p']))
      else None
    case _ => None
  }

  ghost function StepUnpinOld(s: State, pid: nat, p: Proc, c: Choice): (r: Option<State>)
    requires p.phase.UnpinOld?
    ensures Moves(s, pid, r)
  {
    var o := p.phase.o;
    match c
    case Normal =>
      var pins := if o.legacy then s.pins else s.pins - {o.id};
      Some(s.(pins := pins, procs := s.procs[pid := At(p, Done(None))]))
    case UnpinFails(gone, err) =>
      if !o.legacy && o.id in s.pins && CallError(err) then
        Some(s.(pins := s.pins[o.id := Trim(s.pins[o.id], gone)],
                procs := s.procs[pid := if p.phase.full then AfterError(p, err) else At(p, Done(None))]))
      else None
    case _ => None
  }

  ghost function StepStart(s: State, pid: nat, op: Op): (r: Option<State>)
    ensures Moves(s, pid, r)
  {
    if pid !in s.procs && WellFormedOp(op) && ReqIds(op) !! s.ids then
      var empty := match op case Attach(progs) => progs == [] case Detach(ids) => ids == [];
      var ph := if empty then Done(Some(EINVAL)) else Query(0, None);
      Some(s.(procs := s.procs[pid := Proc(op, 0, false, ph, false)], ids := s.ids + ReqIds(op)))
    else None
  }

  ghost function Step(s: State, a: Action): (r: Option<State>)
    ensures Moves(s, a.pid, r)
  {
    match a
    case Start(pid, op) => StepStart(s, pid, op)
    case Act(pid, c) =>
      if pid !in s.procs then None
      else
        var p := s.procs[pid];
        match p.phase
        case Query(_, _) => StepQuery(s, pid, p, c)
        case GetFd(_, _) => StepGetFd(s, pid, p, c)
        case ReadPins(_) => StepReadPins(s, pid, p, c)
        case Build(_) => StepBuild(s, pid, p, c)
        case PinNew(_, _) => StepPinNew(s, pid, p, c)
        case Swap(_, _) => StepSwap(s, pid, p, c)
        case UnpinNew(_, _) => StepUnpinNew(s, pid, p, c)
        case UnpinOld(_, _) => StepUnpinOld(s, pid, p, c)
        case Done(_) => None
        case Astray => None
  }

  /** The state after a run, or None when the run asks for a step that is not possible. */
  ghost function Exec(acts: seq<Action>): Option<State> {
    if acts == [] then Some(Init)
    else
      var s := Exec(acts[..|acts| - 1]);
      if s.Some? then Step(s.value, acts[|acts| - 1]) else None
  }
}
