/** The reference count that AF_XDP sockets of any number of processes share through the
    map of the default XDP program: setup, release, and what detaches a program. */
module XskProgRefcount {
  import opened Common

  /** One loaded instance of the default program. `counted` is false when it carries no
      reference count; `leaked` counts raises that no socket will ever take back, `releases`
      the attempts of sockets to detach it at their release. */
  datatype Inst = Inst(counted: bool, count: nat, attached: bool, leaked: nat, releases: nat)

  /** Where a socket is between __xsk_setup_xdp_prog() and xsk_release_xdp_prog(). */
  datatype Phase =
    | Looking
    | Found(p: nat)
    | Creating(zero: Option<nat>)
    | Holding(p: nat, own: bool)
    | Live(p: nat)
    | Detaching(p: nat)
    | Closed
    | Failed

  datatype State = State(progs: map<nat, Inst>, socks: map<nat, Phase>)

  const Init := State(map[], map[])

  datatype Action =
    | Start(q: nat)
    | LookupFinds(q: nat, p: nat)
    | LookupFindsNothing(q: nat)
    | Incr(q: nat)
    | IncrFails(q: nat)
    | AttachNew(q: nat, p: nat, counted: bool)
    | AttachFails(q: nat)
    | Finish(q: nat)
    | SetupFails(q: nat)
    | SetupFailsKeeping(q: nat)
    | Release(q: nat)
    | LeaveCount(q: nat)
    | Detach(q: nat)
    | DetachFails(q: nat)

  /** xsk_update_prog_refcnt(): zero stays zero. */
  function UpdateRefcnt(count: nat, delta: int): int
    requires delta == 1 || delta == -1
  {
    if count != 0 then count + delta else 0
  }

  function Put(s: State, q: nat, ph: Phase): State {
    s.(socks := s.socks[q := ph])
  }

  function PutBoth(s: State, q: nat, ph: Phase, p: nat, x: Inst): State {
    State(s.progs[p := x], s.socks[q := ph])
  }

  function StepStart(s: State, q: nat): Option<State> {
    if q in s.socks then None else Some(Put(s, q, Looking))
  }

  function StepIncr(s: State, q: nat): Option<State> {
    if q !in s.socks || !s.socks[q].Found? || s.socks[q].p !in s.progs then None
    else
      var p := s.socks[q].p;
      var x := s.progs[p];
      if !x.counted then Some(Put(s, q, Holding(p, false)))
      else
        var refcnt := UpdateRefcnt(x.count, 1);
        if refcnt == 0 then Some(Put(s, q, Creating(Some(p))))
        else Some(PutBoth(s, q, Holding(p, false), p, x.(count := refcnt)))
  }

  function StepAttachNew(s: State, q: nat, p: nat, counted: bool): Option<State> {
    if q !in s.socks || !s.socks[q].Creating? || p in s.progs then None
    else Some(PutBoth(s, q, Holding(p, true), p, Inst(counted, 1, true, 0, 0)))
  }

  /** A failure after the count was raised: it stays raised, and a program this setup attached itself
      is detached again; with `keep` it is not, because the setup fails before it looks for the
      socket map, or because that detach fails. */
  function StepSetupFails(s: State, q: nat, keep: bool): Option<State> {
    if q !in s.socks || !s.socks[q].Holding? || s.socks[q].p !in s.progs || (keep && !s.socks[q].own) then None
    else
      var p := s.socks[q].p;
      var x := s.progs[p];
      Some(PutBoth(s, q, Failed, p, x.(leaked := x.leaked + 1, attached := x.attached && (keep || !s.socks[q].own))))
  }

  function StepRelease(s: State, q: nat): Option<State> {
    if q !in s.socks || !s.socks[q].Live? || s.socks[q].p !in s.progs then None
    else
      var p := s.socks[q].p;
      var x := s.progs[p];
      if !x.counted then Some(Put(s, q, Closed))
      else
        var value := UpdateRefcnt(x.count, -1);
        Some(PutBoth(s, q, if value == 0 then Detaching(p) else Closed, p, x.(count := value)))
  }

  function StepLeaveCount(s: State, q: nat): Option<State> {
    if q !in s.socks || !s.socks[q].Live? || s.socks[q].p !in s.progs then None
    else
      var p := s.socks[q].p;
      var x := s.progs[p];
      Some(PutBoth(s, q, Closed, p, x.(leaked := x.leaked + 1)))
  }

  /** The result of the detach is not looked at. */
  function StepDetach(s: State, q: nat, works: bool): Option<State> {
    if q !in s.socks || !s.socks[q].Detaching? || s.socks[q].p !in s.progs then None
    else
      var p := s.socks[q].p;
      var x := s.progs[p];
      Some(PutBoth(s, q, Closed, p, x.(attached := x.attached && !works, releases := x.releases + 1)))
  }

  function Move(s: State, q: nat, from: Phase -> bool, to: Phase): Option<State> {
    if q in s.socks && from(s.socks[q]) then Some(Put(s, q, to)) else None
  }

  function Step(s: State, a: Action): Option<State> {
    match a
    case Start(q) => StepStart(s, q)
    case LookupFinds(q, p) =>
      if p in s.progs && s.progs[p].attached then Move(s, q, (ph: Phase) => ph.Looking?, Found(p)) else None
    case LookupFindsNothing(q) => Move(s, q, (ph: Phase) => ph.Looking?, Creating(None))
    case Incr(q) => StepIncr(s, q)
    case IncrFails(q) => Move(s, q, (ph: Phase) => ph.Found?, Failed)
    case AttachNew(q, p, counted) => StepAttachNew(s, q, p, counted)
    case AttachFails(q) => Move(s, q, (ph: Phase) => ph.Creating?, Failed)
    case Finish(q) =>
      if q in s.socks && s.socks[q].Holding? then Some(Put(s, q, Live(s.socks[q].p))) else None
    case SetupFails(q) => StepSetupFails(s, q, false)
    case SetupFailsKeeping(q) => StepSetupFails(s, q, true)
    case Release(q) => StepRelease(s, q)
    case LeaveCount(q) => StepLeaveCount(s, q)
    case Detach(q) => StepDetach(s, q, true)
    case DetachFails(q) => StepDetach(s, q, false)
  }

  ghost function Exec(acts: seq<Action>): Option<State> {
    if acts == [] then Some(Init)
    else
      var s := Exec(acts[..|acts| - 1]);
      if s.Some? then Step(s.value, acts[|acts| - 1]) else None
  }

  // ---------------------------------------------------------------------------
  // Counting

  predicate Holds(ph: Phase, p: nat) {
    (ph.Holding? && ph.p == p) || (ph.Live? && ph.p == p)
  }

  ghost function Holders(s: State, p: nat): set<nat> {
    set q | q in s.socks && Holds(s.socks[q], p)
  }

  ghost function Detachers(s: State, p: nat): set<nat> {
    set q | q in s.socks && s.socks[q] == Detaching(p)
  }

  predicate Refers(ph: Phase, p: nat) {
    match ph
    case Found(x) => x == p
    case Creating(z) => z == Some(p)
    case Holding(x, _) => x == p
    case Live(x) => x == p
    case Detaching(x) => x == p
    case _ => false
  }

  ghost predicate ProgOK(s: State, p: nat)
    requires p in s.progs
  {
    var x := s.progs[p];
    && (x.counted ==> x.count == |Holders(s, p)| + x.leaked)
    && (!x.counted ==> Detachers(s, p) == {} && x.releases == 0)
    && x.releases + |Detachers(s, p)| <= 1
    && (x.counted ==> (x.releases + |Detachers(s, p)| == 1 <==> x.count == 0))
  }

  ghost predicate Inv(s: State) {
    && (forall q, p | q in s.socks && Refers(s.socks[q], p) :: p in s.progs)
    && (forall p | p in s.progs :: ProgOK(s, p))
  }

  /** One socket changes phase: how the two sets of every program change. */
  lemma SetsAfter(s: State, s': State, q: nat, ph: Phase, p: nat)
    requires s'.socks == s.socks[q := ph]
    ensures Holders(s', p) == Holders(s, p) - {q} + (if Holds(ph, p) then {q} else {})
    ensures Detachers(s', p) == Detachers(s, p) - {q} + (if ph == Detaching(p) then {q} else {})
    ensures q in Holders(s, p) <==> q in s.socks && Holds(s.socks[q], p)
    ensures q in Detachers(s, p) <==> q in s.socks && s.socks[q] == Detaching(p)
  {
  }

  lemma SameSet(a: set<nat>, q: nat, member: bool)
    requires member == (q in a)
    ensures a - {q} + (if member then {q} else {}) == a
  {
  }

  lemma Untouched(s: State, s': State, q: nat, ph: Phase, p: nat)
    requires p in s.progs && ProgOK(s, p)
    requires s'.socks == s.socks[q := ph] && p in s'.progs && s'.progs[p] == s.progs[p]
    requires Holds(ph, p) == (q in s.socks && Holds(s.socks[q], p))
    requires (ph == Detaching(p)) == (q in s.socks && s.socks[q] == Detaching(p))
    ensures ProgOK(s', p)
  {
    hide Holders, Detachers, Holds;
    SetsAfter(s, s', q, ph, p);
    SameSet(Holders(s, p), q, Holds(ph, p));
    SameSet(Detachers(s, p), q, ph == Detaching(p));
  }

  /** A step that leaves the programs alone and neither takes nor drops a hold. */
  lemma QuietStep(s: State, q: nat, ph: Phase)
    requires Inv(s)
    requires forall p :: Holds(ph, p) == (q in s.socks && Holds(s.socks[q], p))
    requires forall p :: (ph == Detaching(p)) == (q in s.socks && s.socks[q] == Detaching(p))
    requires forall p | Refers(ph, p) :: p in s.progs
    ensures Inv(Put(s, q, ph))
  {
    forall p | p in s.progs
      ensures ProgOK(Put(s, q, ph), p)
    {
      Untouched(s, Put(s, q, ph), q, ph, p);
    }
  }

  lemma OneProgram(s: State, s': State, q: nat, ph: Phase, p: nat)
    requires Inv(s) && p in s'.progs
    requires s' == PutBoth(s, q, ph, p, s'.progs[p])
    requires forall x | x != p :: Holds(ph, x) == (q in s.socks && Holds(s.socks[q], x))
    requires forall x | x != p :: (ph == Detaching(x)) == (q in s.socks && s.socks[q] == Detaching(x))
    requires forall x | Refers(ph, x) :: x in s'.progs
    requires ProgOK(s', p)
    ensures Inv(s')
  {
    forall x | x in s'.progs
      ensures ProgOK(s', x)
    {
      if x != p {
        Untouched(s, s', q, ph, x);
      }
    }
  }

  lemma IncrInv(s: State, q: nat, s': State)
    requires Inv(s) && StepIncr(s, q) == Some(s')
    ensures Inv(s')
  {
    hide Holders, Detachers;
    var p := s.socks[q].p;
    assert ProgOK(s, p);
    hide Inv;
    if s.progs[p].counted && s.progs[p].count == 0 {
      QuietStep(s, q, Creating(Some(p)));
    } else {
      Raised(s, q, p, s');
      assert s' == PutBoth(s, q, Holding(p, false), p, s'.progs[p]);
      OneProgram(s, s', q, Holding(p, false), p);
    }
  }

  /** The program a socket joins. */
  lemma Raised(s: State, q: nat, p: nat, s': State)
    requires p in s.progs && ProgOK(s, p) && q in s.socks && s.socks[q] == Found(p)
    requires s.progs[p].counted ==> s.progs[p].count != 0
    requires StepIncr(s, q) == Some(s')
    ensures p in s'.progs && ProgOK(s', p)
  {
    hide Holders, Detachers, StepIncr;
    IncrEffect(s, q, p, s');
    SetsAfter(s, s', q, Holding(p, false), p);
    AddOne(Holders(s, p), q);
    SameSet(Detachers(s, p), q, false);
  }

  lemma IncrEffect(s: State, q: nat, p: nat, s': State)
    requires p in s.progs && q in s.socks && s.socks[q] == Found(p) && (s.progs[p].counted ==> s.progs[p].count != 0)
    requires StepIncr(s, q) == Some(s')
    ensures s'.socks == s.socks[q := Holding(p, false)] && p in s'.progs
    ensures var x := s.progs[p]; s'.progs[p] == if x.counted then x.(count := x.count + 1) else x
  {
  }

  lemma AddOne(a: set<nat>, q: nat)
    requires q !in a
    ensures |a - {q} + {q}| == |a| + 1
  {
    assert a - {q} == a;
  }

  lemma DropOne(a: set<nat>, q: nat)
    requires q in a
    ensures |a - {q} + {}| == |a| - 1
  {
    assert a - {q} + {} == a - {q};
  }

  lemma AttachNewInv(s: State, q: nat, p: nat, counted: bool, s': State)
    requires Inv(s) && StepAttachNew(s, q, p, counted) == Some(s')
    ensures Inv(s')
  {
    hide Holders, Detachers, ProgOK;
    NobodyRefers(s, p);
    SetsAfter(s, s', q, Holding(p, true), p);
    assert Holders(s', p) == {q} && Detachers(s', p) == {};
    assert ProgOK(s', p) by {
      FreshProgram(s', p, q);
    }
    OneProgram(s, s', q, Holding(p, true), p);
  }

  lemma NobodyRefers(s: State, p: nat)
    requires Inv(s) && p !in s.progs
    ensures Holders(s, p) == {} && Detachers(s, p) == {}
  {
    hide ProgOK;
    assert forall r | r in s.socks && (Holds(s.socks[r], p) || s.socks[r] == Detaching(p)) :: Refers(s.socks[r], p);
  }

  lemma FreshProgram(s: State, p: nat, q: nat)
    requires p in s.progs && s.progs[p].count == 1 && s.progs[p].leaked == 0 && s.progs[p].releases == 0
    requires Holders(s, p) == {q} && Detachers(s, p) == {}
    ensures ProgOK(s, p)
  {
    hide Holders, Detachers;
  }

  lemma DropInv(s: State, q: nat, keep: bool, s': State)
    requires Inv(s) && (StepSetupFails(s, q, keep) == Some(s') || StepLeaveCount(s, q) == Some(s'))
    ensures Inv(s')
  {
    hide Holders, Detachers;
    var p := s.socks[q].p;
    assert ProgOK(s, p);
    SetsAfter(s, s', q, s'.socks[q], p);
    DropOne(Holders(s, p), q);
    SameSet(Detachers(s, p), q, false);
    assert ProgOK(s', p);
    hide ProgOK;
    OneProgram(s, s', q, s'.socks[q], p);
  }

  lemma ReleaseInv(s: State, q: nat, s': State)
    requires Inv(s) && StepRelease(s, q) == Some(s')
    ensures Inv(s')
  {
    var p := s.socks[q].p;
    assert ProgOK(s, p);
    SetsAfter(s, s', q, s'.socks[q], p);
    assert q in Holders(s, p);
    assert |Holders(s, p) - {q}| == |Holders(s, p)| - 1;
    assert s' == PutBoth(s, q, s'.socks[q], p, s'.progs[p]);
    OneProgram(s, s', q, s'.socks[q], p);
  }

  lemma DetachInv(s: State, q: nat, works: bool, s': State)
    requires Inv(s) && StepDetach(s, q, works) == Some(s')
    ensures Inv(s')
  {
    var p := s.socks[q].p;
    assert ProgOK(s, p);
    SetsAfter(s, s', q, Closed, p);
    assert q in Detachers(s, p);
    assert |Detachers(s, p) - {q}| == |Detachers(s, p)| - 1;
    assert Holders(s', p) == Holders(s, p);
    OneProgram(s, s', q, Closed, p);
  }

  lemma StepInv(s: State, a: Action, s': State)
    requires Inv(s) && Step(s, a) == Some(s')
    ensures Inv(s')
  {
    match a {
      case Incr(q) => IncrInv(s, q, s');
      case AttachNew(q, p, counted) => AttachNewInv(s, q, p, counted, s');
      case SetupFails(q) => DropInv(s, q, false, s');
      case SetupFailsKeeping(q) => DropInv(s, q, true, s');
      case LeaveCount(q) => DropInv(s, q, false, s');
      case Release(q) => ReleaseInv(s, q, s');
      case Detach(q) => DetachInv(s, q, true, s');
      case DetachFails(q) => DetachInv(s, q, false, s');
      case _ => QuietStep(s, a.q, s'.socks[a.q]);
    }
  }

  lemma {:induction false} ReachableInv(acts: seq<Action>)
    requires Exec(acts).Some?
    ensures Inv(Exec(acts).value)
  {
    if acts == [] {
      assert Inv(Init);
    } else {
      var before := acts[..|acts| - 1];
      ReachableInv(before);
      StepInv(Exec(before).value, acts[|acts| - 1], Exec(acts).value);
    }
  }

  // ---------------------------------------------------------------------------
  // What every run keeps

  /** The count is exactly the sockets that hold the program plus the raises that were
      never taken back; so it is never below the number of holders. */
  lemma CountIsHoldersPlusLeaks(acts: seq<Action>, p: nat)
    requires Exec(acts).Some? && p in Exec(acts).value.progs && Exec(acts).value.progs[p].counted
    ensures var s := Exec(acts).value; s.progs[p].count == |Holders(s, p)| + s.progs[p].leaked
  {
    ReachableInv(acts);
    assert ProgOK(Exec(acts).value, p);
  }

  lemma StepKeepsZero(s: State, a: Action, s': State, p: nat)
    requires Inv(s) && Step(s, a) == Some(s')
    requires p in s.progs && s.progs[p].counted && s.progs[p].count == 0
    ensures p in s'.progs && s'.progs[p].counted && s'.progs[p].count == 0
  {
    assert ProgOK(s, p) && Holders(s, p) == {};
    assert forall q | q in s.socks && Holds(s.socks[q], p) :: q in Holders(s, p);
  }

  /** Zero is absorbing: however a run goes on, nobody holds the program and its count stays zero. */
  lemma {:induction false} ZeroIsAbsorbing(acts: seq<Action>, more: seq<Action>, p: nat)
    requires Exec(acts).Some? && Exec(acts + more).Some? && p in Exec(acts).value.progs
    requires Exec(acts).value.progs[p].counted && Exec(acts).value.progs[p].count == 0
    ensures var s := Exec(acts + more).value;
            p in s.progs && s.progs[p].counted && s.progs[p].count == 0 && Holders(s, p) == {}
    decreases |more|
  {
    hide Step, Inv, Holders;
    if more == [] {
      assert acts + more == acts;
    } else {
      var init := more[..|more| - 1];
      assert (acts + more)[..|acts + more| - 1] == acts + init;
      ZeroIsAbsorbing(acts, init, p);
      ReachableInv(acts + init);
      StepKeepsZero(Exec(acts + init).value, more[|more| - 1], Exec(acts + more).value, p);
    }
    CountIsHoldersPlusLeaks(acts + more, p);
  }

  /** Whoever is about to detach a program drove it to zero alone: nobody holds it, no one
      else is detaching it, and it was not detached by a release before. */
  lemma ReleaseDetachIsSafe(acts: seq<Action>, q: nat)
    requires Exec(acts).Some? && q in Exec(acts).value.socks && Exec(acts).value.socks[q].Detaching?
    ensures var s := Exec(acts).value; var p := s.socks[q].p;
            && p in s.progs && s.progs[p].count == 0
            && Holders(s, p) == {} && Detachers(s, p) == {q} && s.progs[p].releases == 0
  {
    ReachableInv(acts);
    var s := Exec(acts).value;
    var p := s.socks[q].p;
    assert Refers(s.socks[q], p);
    assert ProgOK(s, p);
    assert q in Detachers(s, p);
    assert |Detachers(s, p) - {q}| == |Detachers(s, p)| - 1;
    assert Detachers(s, p) - {q} == {};
  }

  lemma DetachedByReleaseAtMostOnce(acts: seq<Action>, p: nat)
    requires Exec(acts).Some? && p in Exec(acts).value.progs
    ensures Exec(acts).value.progs[p].releases <= 1
  {
    ReachableInv(acts);
    assert ProgOK(Exec(acts).value, p);
  }

  /** The last socket to release a program, and no other, detaches it: once nobody holds a counted program
      and no raise was left behind, exactly one release has detached it or is about to. */
  lemma LastReleaseDetaches(acts: seq<Action>, p: nat)
    requires Exec(acts).Some? && p in Exec(acts).value.progs && Exec(acts).value.progs[p].counted
    ensures var s := Exec(acts).value;
            Holders(s, p) == {} && s.progs[p].leaked == 0 <==> s.progs[p].releases + |Detachers(s, p)| == 1
  {
    hide Exec;
    ReachableInv(acts);
    assert ProgOK(Exec(acts).value, p);
  }

  /** This step is a detach of p at a release, and it fails. */
  ghost predicate DetachFailsAt(s: Option<State>, a: Action, p: nat) {
    s.Some? && a.DetachFails? && a.q in s.value.socks && s.value.socks[a.q] == Detaching(p)
  }

  ghost predicate DetachFailed(acts: seq<Action>, p: nat) {
    && acts != []
    && var before := acts[..|acts| - 1];
       DetachFailed(before, p) || DetachFailsAt(Exec(before), acts[|acts| - 1], p)
  }

  /** As long as no setup has failed on it, a program is attached until its release detaches it. */
  ghost predicate Follows(s: State, p: nat, failed: bool) {
    && (p !in s.progs ==> !failed)
    && (p in s.progs && s.progs[p].leaked == 0 ==>
          var x := s.progs[p];
          if x.releases == 0 then x.attached && !failed else (x.attached <==> failed))
  }

  lemma StepFollows(s: State, a: Action, s': State, p: nat, failed: bool)
    requires Inv(s) && Follows(s, p, failed) && Step(s, a) == Some(s')
    ensures Follows(s', p, failed || DetachFailsAt(Some(s), a, p))
  {
    if (a.Detach? || a.DetachFails?) && s.socks[a.q] == Detaching(p) {
      assert Refers(s.socks[a.q], p) && ProgOK(s, p);
      assert a.q in Detachers(s, p);
      assert |Detachers(s, p)| >= 1;
    }
    hide Holders, Detachers, Inv, ProgOK;
  }

  lemma {:induction false} RunFollows(acts: seq<Action>, p: nat)
    requires Exec(acts).Some?
    ensures Follows(Exec(acts).value, p, DetachFailed(acts, p))
  {
    hide Step, Inv;
    if acts != [] {
      var before := acts[..|acts| - 1];
      RunFollows(before, p);
      ReachableInv(before);
      StepFollows(Exec(before).value, acts[|acts| - 1], Exec(acts).value, p, DetachFailed(before, p));
    }
  }

  /** A program that was released by its last holder is off the interface unless that detach failed. */
  lemma ReleasedIsDetached(acts: seq<Action>, p: nat)
    requires Exec(acts).Some? && p in Exec(acts).value.progs && Exec(acts).value.progs[p].counted
    requires Exec(acts).value.progs[p].count == 0 && Detachers(Exec(acts).value, p) == {}
    ensures Exec(acts).value.progs[p].releases == 1
    ensures Exec(acts).value.progs[p].attached <==> DetachFailed(acts, p)
  {
    hide Exec, DetachFailed;
    ReachableInv(acts);
    assert ProgOK(Exec(acts).value, p);
    RunFollows(acts, p);
  }

  /** A socket that finds the count at zero ends up on another program, if on any. */
  lemma LatecomerMovesOn(acts: seq<Action>, q: nat, z: nat, a: Action, s': State)
    requires Exec(acts).Some? && q in Exec(acts).value.socks
    requires Exec(acts).value.socks[q] == Creating(Some(z)) && a.q == q
    requires Step(Exec(acts).value, a) == Some(s')
    ensures s'.socks[q] == Failed || (s'.socks[q].Holding? && s'.socks[q].p != z && s'.socks[q].own)
  {
    ReachableInv(acts);
    assert Refers(Exec(acts).value.socks[q], z);
  }

  // ---------------------------------------------------------------------------
  // Failing after one's own attach

  /** A socket that found or holds the program. */
  predicate Knows(ph: Phase, p: nat) {
    ph == Found(p) || Holds(ph, p)
  }

  /** Nobody uses a program that is not on the interface. */
  ghost predicate HoldersServed(s: State) {
    forall q, p | q in s.socks && Holds(s.socks[q], p) :: p in s.progs && s.progs[p].attached
  }

  /** Also counting those who are about to raise a count that is not zero. */
  ghost predicate Served(s: State) {
    forall q, p | q in s.socks && Knows(s.socks[q], p) ::
      && p in s.progs
      && (s.progs[p].attached || (s.socks[q] == Found(p) && s.progs[p].counted && s.progs[p].count == 0))
  }

  /** The program a failing setup takes off the interface is known to nobody else. */
  ghost predicate HarmlessFailure(s: State, a: Action) {
    a.SetupFails? && a.q in s.socks && s.socks[a.q].Holding? && s.socks[a.q].own ==>
      forall r | r in s.socks && r != a.q :: !Knows(s.socks[r], s.socks[a.q].p)
  }

  ghost predicate ServedAt(s: State, ph: Phase, p: nat) {
    && p in s.progs
    && (s.progs[p].attached || (ph == Found(p) && s.progs[p].counted && s.progs[p].count == 0))
  }

  /** Steps that take no program off the interface. */
  lemma ServedFrame(s: State, s': State, q: nat, ph: Phase)
    requires Served(s) && s'.socks == s.socks[q := ph]
    requires forall p | p in s.progs ::
               && p in s'.progs && (s.progs[p].attached ==> s'.progs[p].attached)
               && (s.progs[p].counted && s.progs[p].count == 0 ==> s'.progs[p].counted && s'.progs[p].count == 0)
    requires forall p | Knows(ph, p) :: ServedAt(s', ph, p)
    ensures Served(s')
  {
    forall r, p | r in s'.socks && Knows(s'.socks[r], p)
      ensures ServedAt(s', s'.socks[r], p)
    {
      if r != q {
        assert r in s.socks && Knows(s.socks[r], p);
      }
    }
  }

  lemma DetachServed(s: State, q: nat, works: bool, s': State)
    requires Inv(s) && Served(s) && StepDetach(s, q, works) == Some(s')
    ensures Served(s')
  {
    var p := s.socks[q].p;
    assert ProgOK(s, p) && q in Detachers(s, p);
    assert |Detachers(s, p) - {q}| == |Detachers(s, p)| - 1;
    assert Holders(s, p) == {};
    forall r, x | r in s'.socks && Knows(s'.socks[r], x)
      ensures ServedAt(s', s'.socks[r], x)
    {
      assert r in s.socks && Knows(s.socks[r], x);
      if x == p {
        assert r !in Holders(s, p);
      }
    }
  }

  lemma SetupFailsServed(s: State, q: nat, keep: bool, s': State)
    requires Served(s) && (keep || HarmlessFailure(s, SetupFails(q))) && StepSetupFails(s, q, keep) == Some(s')
    ensures Served(s')
  {
    forall r, x | r in s'.socks && Knows(s'.socks[r], x)
      ensures ServedAt(s', s'.socks[r], x)
    {
      assert r in s.socks && r != q && Knows(s.socks[r], x);
    }
  }

  lemma MoveServed(s: State, a: Action, s': State)
    requires Served(s) && Step(s, a) == Some(s') && s'.progs == s.progs
    requires !a.Detach? && !a.DetachFails? && !a.SetupFails? && !a.SetupFailsKeeping?
    ensures Served(s')
  {
    var ph := s'.socks[a.q];
    forall p | Knows(ph, p)
      ensures ServedAt(s', ph, p)
    {
      if !a.LookupFinds? {
        assert Knows(s.socks[a.q], p);
      }
    }
    ServedFrame(s, s', a.q, ph);
  }

  lemma CountServed(s: State, a: Action, s': State)
    requires Served(s) && Step(s, a) == Some(s')
    requires a.Incr? || a.AttachNew? || a.Release? || a.LeaveCount?
    ensures Served(s')
  {
    var ph := s'.socks[a.q];
    if a.Incr? {
      assert Knows(s.socks[a.q], s.socks[a.q].p);
    }
    assert forall p | Knows(ph, p) :: ServedAt(s', ph, p);
    ServedFrame(s, s', a.q, ph);
  }

  lemma StepServed(s: State, a: Action, s': State)
    requires Inv(s) && Served(s) && HarmlessFailure(s, a) && Step(s, a) == Some(s')
    ensures Served(s')
  {
    match a {
      case Detach(q) => DetachServed(s, q, true, s');
      case DetachFails(q) => DetachServed(s, q, false, s');
      case SetupFails(q) => SetupFailsServed(s, q, false, s');
      case SetupFailsKeeping(q) => SetupFailsServed(s, q, true, s');
      case Incr(_) => CountServed(s, a, s');
      case AttachNew(_, _, _) => CountServed(s, a, s');
      case Release(_) => CountServed(s, a, s');
      case LeaveCount(_) => CountServed(s, a, s');
      case _ => MoveServed(s, a, s');
    }
  }

  /** Every step before which `acts` would have to be harmless. */
  ghost predicate AllFailuresHarmless(acts: seq<Action>)
    requires Exec(acts).Some?
    decreases |acts|
  {
    acts != [] ==>
      && AllFailuresHarmless(acts[..|acts| - 1])
      && HarmlessFailure(Exec(acts[..|acts| - 1]).value, acts[|acts| - 1])
  }

  lemma {:induction false} RunServed(acts: seq<Action>)
    requires Exec(acts).Some? && AllFailuresHarmless(acts)
    ensures Served(Exec(acts).value)
    decreases |acts|
  {
    if acts != [] {
      var before := acts[..|acts| - 1];
      RunServed(before);
      ReachableInv(before);
      StepServed(Exec(before).value, acts[|acts| - 1], Exec(acts).value);
    }
  }

  /** No program is detached while a socket holds it, in every run whose failing setups
      take down only programs that nobody else has found yet. */
  lemma NeverDetachedWhileHeld(acts: seq<Action>)
    requires Exec(acts).Some? && AllFailuresHarmless(acts)
    ensures HoldersServed(Exec(acts).value)
  {
    RunServed(acts);
    hide Exec, AllFailuresHarmless;
    ServedHolders(Exec(acts).value);
  }

  lemma ServedHolders(s: State)
    requires Served(s)
    ensures HoldersServed(s)
  {
    forall q, p | q in s.socks && Holds(s.socks[q], p)
      ensures p in s.progs && s.progs[p].attached
    {
      assert Knows(s.socks[q], p);
    }
  }

  /** The condition is exact: when another socket knows the program, the failing setup
      leaves that socket with a detached program, at once or with its next step. */
  lemma HarmfulFailureStrandsASocket(s: State, q: nat, r: nat, s': State)
    requires Inv(s) && Step(s, SetupFails(q)) == Some(s')
    requires s.socks[q].Holding? && s.socks[q].own
    requires r in s.socks && r != q && Knows(s.socks[r], s.socks[q].p)
    ensures !HoldersServed(s') || (Step(s', Incr(r)).Some? && !HoldersServed(Step(s', Incr(r)).value))
  {
    var p := s.socks[q].p;
    assert ProgOK(s, p) && q in Holders(s, p);
    assert |Holders(s, p) - {q}| == |Holders(s, p)| - 1;
    assert !s'.progs[p].attached && s'.socks[r] == s.socks[r];
    if s.socks[r] == Found(p) {
      var s'' := Step(s', Incr(r)).value;
      assert Holds(s''.socks[r], p) && !s''.progs[p].attached;
    } else {
      assert Holds(s'.socks[r], p);
    }
  }

  lemma ExecThen(acts: seq<Action>, s: State, a: Action, s': State)
    requires Exec(acts) == Some(s) && Step(s, a) == Some(s')
    ensures Exec(acts + [a]) == Some(s')
  {
    assert (acts + [a])[..|acts|] == acts;
  }

  lemma FirstSocketAttaches() returns (acts: seq<Action>, s: State)
    ensures Exec(acts) == Some(s)
    ensures 1 in s.socks && s.socks[1] == Holding(7, true) && 2 !in s.socks
    ensures 7 in s.progs && s.progs[7] == Inst(true, 1, true, 0, 0)
  {
    assert Exec([]) == Some(Init);
    hide Exec;
    var s0 := Put(Init, 1, Looking);
    ExecThen([], Init, Start(1), s0);
    var s1 := Put(s0, 1, Creating(None));
    ExecThen([] + [Start(1)], s0, LookupFindsNothing(1), s1);
    s := Step(s1, AttachNew(1, 7, true)).value;
    acts := [] + [Start(1)] + [LookupFindsNothing(1)] + [AttachNew(1, 7, true)];
    ExecThen([] + [Start(1)] + [LookupFindsNothing(1)], s1, AttachNew(1, 7, true), s);
  }

  /** Such a failure can happen: socket 2 joins the program of socket 1, then socket 1 fails and takes the program down. */
  lemma HolderCanBeStranded() returns (acts: seq<Action>)
    ensures Exec(acts).Some? && !HoldersServed(Exec(acts).value)
  {
    var acts0, s0 := FirstSocketAttaches();
    hide Exec;
    var s1 := Put(s0, 2, Looking);
    ExecThen(acts0, s0, Start(2), s1);
    var s2 := Put(s1, 2, Found(7));
    ExecThen(acts0 + [Start(2)], s1, LookupFinds(2, 7), s2);
    var s3 := Step(s2, Incr(2)).value;
    ExecThen(acts0 + [Start(2)] + [LookupFinds(2, 7)], s2, Incr(2), s3);
    var s4 := Step(s3, SetupFails(1)).value;
    acts := acts0 + [Start(2)] + [LookupFinds(2, 7)] + [Incr(2)] + [SetupFails(1)];
    ExecThen(acts0 + [Start(2)] + [LookupFinds(2, 7)] + [Incr(2)], s3, SetupFails(1), s4);
    assert Holds(s4.socks[2], 7) && !s4.progs[7].attached;
  }
}
