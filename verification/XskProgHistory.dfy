/** How a socket comes to where it is: every phase is earned by the calls of the socket's own run. */
module XskProgHistory {
  import opened Common
  import opened XskProgRefcount

  /** The count of this program has gone to zero for good. */
  predicate Spent(s: State, p: nat) {
    p in s.progs && s.progs[p].counted && s.progs[p].count == 0
  }

  ghost predicate AttachedBy(acts: seq<Action>, q: nat, p: nat) {
    exists counted :: AttachNew(q, p, counted) in acts
  }

  /** A socket makes a program of its own only if the lookup found none, or found one that is spent; it holds a
      program that it attached, or found and raised; it detaches a spent program after its release. */
  ghost predicate Earned(acts: seq<Action>, s: State, q: nat, ph: Phase) {
    match ph
    case Looking => Start(q) in acts
    case Found(p) => LookupFinds(q, p) in acts
    case Creating(None) => LookupFindsNothing(q) in acts
    case Creating(Some(p)) => LookupFinds(q, p) in acts && Incr(q) in acts && Spent(s, p)
    case Holding(p, true) => AttachedBy(acts, q, p)
    case Holding(p, false) => LookupFinds(q, p) in acts && Incr(q) in acts
    case Live(p) => Finish(q) in acts && (AttachedBy(acts, q, p) || (LookupFinds(q, p) in acts && Incr(q) in acts))
    case Detaching(p) => Release(q) in acts && Spent(s, p)
    case Closed => Release(q) in acts || LeaveCount(q) in acts
    case Failed => IncrFails(q) in acts || AttachFails(q) in acts || SetupFails(q) in acts || SetupFailsKeeping(q) in acts
  }

  /** A program exists because a socket attached it, with or without a count. */
  ghost predicate Made(acts: seq<Action>, s: State, p: nat)
    requires p in s.progs
  {
    exists q :: AttachNew(q, p, s.progs[p].counted) in acts
  }

  ghost predicate AllEarned(acts: seq<Action>, s: State) {
    && (forall q | q in s.socks :: Earned(acts, s, q, s.socks[q]))
    && (forall p | p in s.progs :: Made(acts, s, p))
  }

  lemma EarnedLater(acts: seq<Action>, a: Action, s: State, s': State, q: nat, ph: Phase)
    requires Earned(acts, s, q, ph) && forall p | Spent(s, p) :: Spent(s', p)
    ensures Earned(acts + [a], s', q, ph)
  {
    var all := acts + [a];
    assert forall x | x in acts :: x in all;
    assert forall p | AttachedBy(acts, q, p) :: AttachedBy(all, q, p);
  }

  lemma StaysSpent(s: State, a: Action, s': State, p: nat)
    requires Spent(s, p) && Step(s, a) == Some(s')
    ensures Spent(s', p)
  {
  }

  /** The phase the step leads to. */
  lemma EarnedNow(acts: seq<Action>, s: State, a: Action, s': State)
    requires Inv(s) && AllEarned(acts, s) && Step(s, a) == Some(s')
    ensures a.q in s'.socks && s'.socks == s.socks[a.q := s'.socks[a.q]]
    ensures Earned(acts + [a], s', a.q, s'.socks[a.q])
  {
    var all := acts + [a];
    assert a in all && forall x | x in acts :: x in all;
    if a.q in s.socks {
      assert Earned(acts, s, a.q, s.socks[a.q]);
      assert forall p | AttachedBy(acts, a.q, p) :: AttachedBy(all, a.q, p);
    }
    hide Inv, AllEarned;
  }

  lemma MadeStep(acts: seq<Action>, s: State, a: Action, s': State, p: nat)
    requires AllEarned(acts, s) && Step(s, a) == Some(s') && p in s'.progs
    ensures Made(acts + [a], s', p)
  {
    var all := acts + [a];
    if p in s.progs {
      assert Made(acts, s, p) && s'.progs[p].counted == s.progs[p].counted;
      var q :| AttachNew(q, p, s.progs[p].counted) in acts;
      assert AttachNew(q, p, s.progs[p].counted) in all;
    } else {
      assert a == AttachNew(a.q, p, s'.progs[p].counted) && a in all;
    }
  }

  lemma StepEarned(acts: seq<Action>, s: State, a: Action, s': State)
    requires Inv(s) && AllEarned(acts, s) && Step(s, a) == Some(s')
    ensures AllEarned(acts + [a], s')
  {
    EarnedNow(acts, s, a, s');
    forall p | Spent(s, p)
      ensures Spent(s', p)
    {
      StaysSpent(s, a, s', p);
    }
    hide Step, Inv, Earned, Made, Spent;
    forall q | q in s'.socks
      ensures Earned(acts + [a], s', q, s'.socks[q])
    {
      if q != a.q {
        EarnedLater(acts, a, s, s', q, s.socks[q]);
      }
    }
    forall p | p in s'.progs
      ensures Made(acts + [a], s', p)
    {
      MadeStep(acts, s, a, s', p);
    }
  }

  /** In every run every socket's phase, and every program, has its cause. */
  lemma {:induction false} EveryPhaseEarned(acts: seq<Action>)
    requires Exec(acts).Some?
    ensures AllEarned(acts, Exec(acts).value)
  {
    hide Step, Inv, Earned, Made;
    if acts != [] {
      var before := acts[..|acts| - 1];
      EveryPhaseEarned(before);
      ReachableInv(before);
      StepEarned(before, Exec(before).value, acts[|acts| - 1], Exec(acts).value);
      assert before + [acts[|acts| - 1]] == acts;
    }
  }
}
