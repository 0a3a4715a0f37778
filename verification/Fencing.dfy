/** Safety of the leader lock: what stands between an instance and its next dispatch, and how far
    the lock keeps two dispatching instances apart. */
module Fencing {
  import opened Wrappers
  import opened Fleet

  function PhaseAt(expiry: int, s: State, acts: seq<Action>, k: nat, i: InstanceId): Option<Phase>
    requires k <= |acts|
  {
    var t := Exec(expiry, s, acts[..k]);
    if i in t.fleet then Some(t.fleet[i].phase) else None
  }

  lemma ExecPrefix(expiry: int, s: State, acts: seq<Action>, k: nat)
    requires k < |acts|
    ensures Exec(expiry, s, acts[..k + 1]) == Step(expiry, Exec(expiry, s, acts[..k]), acts[k])
  {
    assert acts[..k + 1][..k] == acts[..k];
  }

  // At `k`, `i` was leading, extended the lock it was holding, and heard so.
  ghost predicate ExtendsAt(expiry: int, s: State, acts: seq<Action>, k: nat, i: InstanceId)
    requires k < |acts|
  {
    var t := Exec(expiry, s, acts[..k]);
    acts[k] == Extend(i, true) && HeldBy(t.lease, i, t.now) && i in t.fleet && t.fleet[i].phase.Leading?
  }

  // At `k`, `i` acquired a lock nobody was holding, and heard so.
  ghost predicate LocksAt(expiry: int, s: State, acts: seq<Action>, k: nat, i: InstanceId)
    requires k < |acts|
  {
    var t := Exec(expiry, s, acts[..k]);
    acts[k] == Lock(i, true) && Available(t.lease, t.now)
  }

  ghost predicate FencedSince(expiry: int, s: State, acts: seq<Action>, k: nat, j: nat, i: InstanceId)
    requires k < j <= |acts|
  {
    ExtendsAt(expiry, s, acts, k, i) && forall l :: k < l <= j ==> FencedAt(expiry, s, acts, l, i)
  }

  predicate FencedAt(expiry: int, s: State, acts: seq<Action>, k: nat, i: InstanceId)
    requires k <= |acts|
  {
    PhaseAt(expiry, s, acts, k, i).Some? && PhaseAt(expiry, s, acts, k, i).value.Fenced?
  }

  lemma OnlyExtendEntersFence(expiry: int, t: State, a: Action, i: InstanceId)
    requires i in Step(expiry, t, a).fleet && Step(expiry, t, a).fleet[i].phase.Fenced?
    requires !(i in t.fleet && t.fleet[i].phase.Fenced?)
    ensures a == Extend(i, true) && HeldBy(t.lease, i, t.now) && i in t.fleet && t.fleet[i].phase.Leading?
  {
  }

  /** Whoever is about to dispatch extended the lock, while holding it, in this very tick: from
      that Extend on its loop has stood at the fence. */
  lemma {:induction false} DispatchFollowsExtend(expiry: int, s: State, acts: seq<Action>, j: nat, i: InstanceId)
    requires Initial(s) && j <= |acts|
    requires FencedAt(expiry, s, acts, j, i)
    ensures exists k :: 0 <= k < j && FencedSince(expiry, s, acts, k, j, i)
  {
    assert acts[..0] == [];
    assert j > 0;
    ExecPrefix(expiry, s, acts, j - 1);
    if FencedAt(expiry, s, acts, j - 1, i) {
      DispatchFollowsExtend(expiry, s, acts, j - 1, i);
      var k :| 0 <= k < j - 1 && FencedSince(expiry, s, acts, k, j - 1, i);
      assert FencedSince(expiry, s, acts, k, j, i);
    } else {
      OnlyExtendEntersFence(expiry, Exec(expiry, s, acts[..j - 1]), acts[j - 1], i);
      assert FencedSince(expiry, s, acts, j - 1, j, i);
    }
  }

  lemma OnlyLockEndsFollowing(expiry: int, t: State, a: Action, i: InstanceId)
    requires i in Step(expiry, t, a).fleet && !Step(expiry, t, a).fleet[i].phase.Following?
    requires i in t.fleet && t.fleet[i].phase.Following?
    ensures a == Lock(i, true) && Available(t.lease, t.now)
  {
  }

  lemma FleetFixed(expiry: int, t: State, a: Action)
    ensures Step(expiry, t, a).fleet.Keys == t.fleet.Keys
  {
  }

  /** An instance that has stepped down, for whatever reason, acquires the lock afresh before it
      dispatches again. */
  lemma {:induction false} SteppedDownMustLock(expiry: int, s: State, acts: seq<Action>, k: nat, j: nat, i: InstanceId)
    requires k <= j <= |acts|
    requires PhaseAt(expiry, s, acts, k, i) == Some(Following)
    requires PhaseAt(expiry, s, acts, j, i).Some? && !PhaseAt(expiry, s, acts, j, i).value.Following?
    ensures exists l :: k <= l < j && LocksAt(expiry, s, acts, l, i)
  {
    assert j > k;
    ExecPrefix(expiry, s, acts, j - 1);
    var t := Exec(expiry, s, acts[..j - 1]);
    FleetFixed(expiry, t, acts[j - 1]);
    if t.fleet[i].phase.Following? {
      OnlyLockEndsFollowing(expiry, t, acts[j - 1], i);
      assert LocksAt(expiry, s, acts, j - 1, i);
    } else {
      SteppedDownMustLock(expiry, s, acts, k, j - 1, i);
      var l :| k <= l < j - 1 && LocksAt(expiry, s, acts, l, i);
    }
  }

  lemma OnlyLockMakesLeader(expiry: int, t: State, a: Action, i: InstanceId)
    requires i in t.fleet && !IsLeader(t.fleet[i].phase)
    ensures var t' := Step(expiry, t, a); i in t'.fleet && (IsLeader(t'.fleet[i].phase) ==> a == Lock(i, true))
  {
  }

  /** An instance whose flag is down, also while a dispatch of it is still under way, raises it again only
      by a fresh Lock. */
  lemma {:induction false} LeadsAgainByLock(expiry: int, s: State, acts: seq<Action>, k: nat, j: nat, i: InstanceId)
    requires k <= j <= |acts|
    requires PhaseAt(expiry, s, acts, k, i).Some? && !IsLeader(PhaseAt(expiry, s, acts, k, i).value)
    requires PhaseAt(expiry, s, acts, j, i).Some? && IsLeader(PhaseAt(expiry, s, acts, j, i).value)
    ensures exists l :: k <= l < j && acts[l] == Lock(i, true)
  {
    assert j > k;
    ExecPrefix(expiry, s, acts, j - 1);
    var t := Exec(expiry, s, acts[..j - 1]);
    FleetFixed(expiry, t, acts[j - 1]);
    if IsLeader(t.fleet[i].phase) {
      LeadsAgainByLock(expiry, s, acts, k, j - 1, i);
    } else {
      OnlyLockMakesLeader(expiry, t, acts[j - 1], i);
    }
  }

  /** Stop does not interrupt a dispatch: it goes out as it would have, though without the lock, and leaves
      a follower. */
  lemma StopLetsTheDispatchFinish(expiry: int, t: State, i: InstanceId, ok: set<MonitorId>)
    requires i in t.fleet && t.fleet[i].phase == Fenced(true)
    ensures var plain := Step(expiry, t, Send(i, ok));
            var t' := Step(expiry, Step(expiry, t, Stop(i)), Send(i, ok));
            && |plain.log| == |t'.log| == |t.log| + 1 && !HeldBy(t'.lease, i, t'.now)
            && t'.log[|t.log|] == plain.log[|t.log|].(term := None)
            && t'.fleet[i] == Instance(Following, plain.fleet[i].regs)
  {
  }

  /** A failed Extend is a step-down: the next dispatch needs a fresh Lock. */
  lemma FailedExtendMustLock(expiry: int, s: State, acts: seq<Action>, k: nat, j: nat, i: InstanceId)
    requires k < j <= |acts|
    requires acts[k].Extend? && acts[k].i == i && PhaseAt(expiry, s, acts, k, i) == Some(Leading)
    requires !ExtendsAt(expiry, s, acts, k, i)
    requires FencedAt(expiry, s, acts, j, i)
    ensures exists l :: k < l < j && LocksAt(expiry, s, acts, l, i)
  {
    ExecPrefix(expiry, s, acts, k);
    SteppedDownMustLock(expiry, s, acts, k + 1, j, i);
    var l :| k + 1 <= l < j && LocksAt(expiry, s, acts, l, i);
  }

  // ---- The windows the lock hands out ----

  predicate Covered(s: State, g: Grant) {
    g.until <= s.now || (s.lease.Held? && s.lease.owner == g.inst && g.until <= s.lease.until)
  }

  ghost predicate GrantInv(expiry: int, s: State) {
    && (s.lease.Held? ==> s.lease.until <= s.now + expiry)
    && (forall k :: 0 <= k < |s.grants| ==> s.grants[k].from <= s.now && Covered(s, s.grants[k]))
    && Disjoint(s.grants)
  }

  ghost predicate Disjoint(gs: seq<Grant>) {
    forall j, k :: 0 <= j < k < |gs| && gs[j].inst != gs[k].inst ==> gs[j].until <= gs[k].from
  }

  lemma StepKeepsGrantInv(expiry: int, s: State, a: Action)
    requires expiry > 0 && GrantInv(expiry, s)
    ensures GrantInv(expiry, Step(expiry, s, a))
  {
  }

  lemma {:induction false} ExecKeepsGrantInv(expiry: int, s: State, acts: seq<Action>)
    requires expiry > 0 && GrantInv(expiry, s)
    ensures GrantInv(expiry, Exec(expiry, s, acts))
  {
    if acts != [] {
      ExecKeepsGrantInv(expiry, s, acts[..|acts| - 1]);
      StepKeepsGrantInv(expiry, Exec(expiry, s, acts[..|acts| - 1]), acts[|acts| - 1]);
    }
  }

  /** However many instances believe they lead, the Extend-to-expiry windows of different instances
      never overlap. */
  lemma GrantsOfDifferentInstancesDisjoint(expiry: int, s: State, acts: seq<Action>)
    requires expiry > 0 && Initial(s)
    ensures Disjoint(Exec(expiry, s, acts).grants)
  {
    ExecKeepsGrantInv(expiry, s, acts);
  }

  // ---- A dispatch made in time falls in such a window ----

  predicate Inside(gs: seq<Grant>, i: InstanceId, at: int) {
    exists k :: 0 <= k < |gs| && gs[k].inst == i && gs[k].from <= at <= gs[k].until
  }

  ghost predicate InsideInv(s: State) {
    && (forall j :: 0 <= j < |s.log| ==> s.log[j].at <= s.now)
    && (forall j :: 0 <= j < |s.log| && s.log[j].term.Some? ==> Inside(s.grants, s.log[j].inst, s.log[j].at))
    && (forall i :: i in s.fleet && s.fleet[i].phase.Fenced? && HeldBy(s.lease, i, s.now) ==>
          Inside(s.grants, i, s.now) && OpenGrant(s, i))
  }

  // The grant that runs as long as the lock now does.
  predicate OpenGrant(s: State, i: InstanceId) {
    exists k :: 0 <= k < |s.grants| && s.grants[k].inst == i && s.lease.Held?
                && s.grants[k].from <= s.now && s.grants[k].until == s.lease.until
  }

  lemma InsideMonotone(gs: seq<Grant>, gs': seq<Grant>, i: InstanceId, at: int)
    requires |gs| <= |gs'| && Inside(gs, i, at)
    requires forall k :: 0 <= k < |gs| && gs[k].inst == i && gs[k].from <= at <= gs[k].until ==>
               gs'[k].inst == i && gs'[k].from <= at <= gs'[k].until
    ensures Inside(gs', i, at)
  {
    var k :| 0 <= k < |gs| && gs[k].inst == i && gs[k].from <= at <= gs[k].until;
    assert gs'[k].inst == i && gs'[k].from <= at <= gs'[k].until;
  }

  lemma StepKeepsInside(expiry: int, s: State, a: Action)
    requires expiry > 0 && InsideInv(s)
    ensures InsideInv(Step(expiry, s, a))
  {
    var s' := Step(expiry, s, a);
    forall j | 0 <= j < |s.log| && s.log[j].term.Some?
      ensures Inside(s'.grants, s.log[j].inst, s.log[j].at)
    {
      InsideMonotone(s.grants, s'.grants, s.log[j].inst, s.log[j].at);
    }
    forall i | i in s'.fleet && s'.fleet[i].phase.Fenced? && HeldBy(s'.lease, i, s'.now)
      ensures Inside(s'.grants, i, s'.now) && OpenGrant(s', i)
    {
      if a.Extend? && a.i == i && i in s.fleet && s.fleet[i].phase.Leading? {
        var k := |s.grants|;
        assert s'.grants[k].inst == i && s'.grants[k].until == s'.lease.until;
      } else {
        assert HeldBy(s.lease, i, s.now) && s'.lease == s.lease;
        var k :| 0 <= k < |s.grants| && s.grants[k].inst == i && s.grants[k].from <= s.now
                 && s.grants[k].until == s.lease.until;
        assert s'.grants[k] == s.grants[k];
      }
    }
  }

  lemma {:induction false} OnTimeDispatchInsideGrant(expiry: int, s: State, acts: seq<Action>)
    requires expiry > 0 && Initial(s)
    ensures InsideInv(Exec(expiry, s, acts))
  {
    if acts != [] {
      OnTimeDispatchInsideGrant(expiry, s, acts[..|acts| - 1]);
      StepKeepsInside(expiry, Exec(expiry, s, acts[..|acts| - 1]), acts[|acts| - 1]);
    }
  }
}
