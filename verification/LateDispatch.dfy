/** Why the rate bound counts late dispatches, and when it need not: the clock is read after the
    fence, so an instance that stalls between the two dispatches although another one may have taken
    over by then. */
module LateDispatch {
  import opened Wrappers
  import opened Fleet
  import opened Fencing
  import opened RateBound

  function NowAt(expiry: int, s: State, acts: seq<Action>, k: nat): int
    requires k <= |acts|
  {
    Exec(expiry, s, acts[..k]).now
  }

  /** Every dispatch is stamped less than `limit` after the Extend at its fence, and no instance is
      stopped between the two. */
  ghost predicate Prompt(expiry: int, s: State, acts: seq<Action>, limit: int) {
    && (forall j, k, i :: 0 <= j < k < |acts| && Sends(acts[k], i) && FencedSince(expiry, s, acts, j, k, i) ==>
          NowAt(expiry, s, acts, k) - NowAt(expiry, s, acts, j) < limit)
    && (forall k, i :: 0 <= k < |acts| && acts[k] == Stop(i) ==> !FencedAt(expiry, s, acts, k, i))
  }

  predicate Sends(a: Action, i: InstanceId) { a.Send? && a.i == i }

  // ---- Prompt dispatches are made under the lock ----

  lemma TimeGoesOn(expiry: int, t: State, a: Action)
    ensures t.now <= Step(expiry, t, a).now
  {
  }

  lemma {:induction false} TimeIsMonotone(expiry: int, s: State, acts: seq<Action>, j: nat, k: nat)
    requires j <= k <= |acts|
    ensures NowAt(expiry, s, acts, j) <= NowAt(expiry, s, acts, k)
  {
    if j < k {
      TimeIsMonotone(expiry, s, acts, j, k - 1);
      ExecPrefix(expiry, s, acts, k - 1);
      TimeGoesOn(expiry, Exec(expiry, s, acts[..k - 1]), acts[k - 1]);
    }
  }

  // `i` owns the lock until `until`.
  predicate Owns(t: State, i: InstanceId, until: int) {
    t.lease.Held? && t.lease == Held(i, t.lease.term, until)
  }

  // At the fence the owner keeps the lock, as long as it lives and the owner is not stopped.
  lemma FenceKeepsLock(expiry: int, t: State, a: Action, i: InstanceId, until: int)
    requires Owns(t, i, until) && t.now < until && a != Stop(i)
    requires i in t.fleet && t.fleet[i].phase.Fenced?
    ensures Owns(Step(expiry, t, a), i, until)
  {
  }

  lemma ExtendBuysTime(expiry: int, t: State, i: InstanceId)
    requires i in t.fleet && HeldBy(t.lease, i, t.now) && t.fleet[i].phase.Leading?
    ensures Owns(Step(expiry, t, Extend(i, true)), i, t.now + expiry)
  {
  }

  lemma {:induction false} StillOwns(expiry: int, s: State, acts: seq<Action>, j: nat, k: nat, i: InstanceId)
    requires j < k <= |acts| && FencedSince(expiry, s, acts, j, k, i)
    requires forall l :: j < l < k ==> acts[l] != Stop(i)
    requires NowAt(expiry, s, acts, k) < NowAt(expiry, s, acts, j) + expiry
    ensures Owns(Exec(expiry, s, acts[..k]), i, NowAt(expiry, s, acts, j) + expiry)
    decreases k
  {
    ExecPrefix(expiry, s, acts, k - 1);
    var t := Exec(expiry, s, acts[..k - 1]);
    TimeIsMonotone(expiry, s, acts, k - 1, k);
    if j == k - 1 {
      ExtendBuysTime(expiry, t, i);
    } else {
      StillOwns(expiry, s, acts, j, k - 1, i);
      assert FencedAt(expiry, s, acts, k - 1, i);
      FenceKeepsLock(expiry, t, acts[k - 1], i, NowAt(expiry, s, acts, j) + expiry);
    }
  }

  // ---- Without late dispatches the bound is the plain one ----

  ghost predicate AllInTime(log: seq<Dispatch>) { forall k :: 0 <= k < |log| ==> log[k].term.Some? }

  lemma {:induction false} PromptPrefix(expiry: int, s: State, acts: seq<Action>, n: nat, limit: int)
    requires n <= |acts| && Prompt(expiry, s, acts, limit)
    ensures Prompt(expiry, s, acts[..n], limit)
  {
    var init := acts[..n];
    forall k | 0 <= k <= n ensures init[..k] == acts[..k] { }
    forall j, k, i | 0 <= j < k < n && Sends(init[k], i) && FencedSince(expiry, s, init, j, k, i)
      ensures NowAt(expiry, s, init, k) - NowAt(expiry, s, init, j) < limit
    {
      assert ExtendsAt(expiry, s, acts, j, i);
      forall l | j < l <= k ensures FencedAt(expiry, s, acts, l, i) {
        assert FencedAt(expiry, s, init, l, i);
      }
      assert FencedSince(expiry, s, acts, j, k, i);
    }
    forall k, i | 0 <= k < n && init[k] == Stop(i) ensures !FencedAt(expiry, s, init, k, i) {
      assert acts[k] == Stop(i);
      assert !FencedAt(expiry, s, acts, k, i);
    }
  }

  lemma PromptSendOwns(expiry: int, s: State, acts: seq<Action>, n: nat, i: InstanceId, limit: int)
    requires Initial(s) && Prompt(expiry, s, acts, limit) && limit <= expiry
    requires n < |acts| && Sends(acts[n], i) && FencedAt(expiry, s, acts, n, i)
    ensures var t := Exec(expiry, s, acts[..n]); HeldBy(t.lease, i, t.now)
  {
    DispatchFollowsExtend(expiry, s, acts, n, i);
    var j :| 0 <= j < n && FencedSince(expiry, s, acts, j, n, i);
    assert NowAt(expiry, s, acts, n) - NowAt(expiry, s, acts, j) < limit;
    forall l | j < l < n ensures acts[l] != Stop(i) {
      assert FencedAt(expiry, s, acts, l, i);
    }
    StillOwns(expiry, s, acts, j, n, i);
  }

  lemma {:induction false} PromptIsInTime(expiry: int, s: State, acts: seq<Action>, limit: int)
    requires Initial(s) && Prompt(expiry, s, acts, limit) && limit <= expiry
    ensures AllInTime(Exec(expiry, s, acts).log)
  {
    if acts != [] {
      var n := |acts| - 1;
      PromptPrefix(expiry, s, acts, n, limit);
      PromptIsInTime(expiry, s, acts[..n], limit);
      var t := Exec(expiry, s, acts[..n]);
      if acts[n].Send? && acts[n].i in t.fleet && t.fleet[acts[n].i].phase.Fenced? {
        assert FencedAt(expiry, s, acts, n, acts[n].i);
        PromptSendOwns(expiry, s, acts, n, acts[n].i, limit);
      }
    }
  }

  lemma {:induction false} NoneLate(log: seq<Dispatch>, m: MonitorId, from: int, to: int)
    requires AllInTime(log)
    ensures Publishes(log, m, from, to, true) == []
  {
    if log != [] { NoneLate(log[..|log| - 1], m, from, to); }
  }

  // ---- Exactly when ----

  // The bound without the term for late dispatches, on one run and over one window.
  ghost predicate PlainBound(log: seq<Dispatch>, m: MonitorId, from: int, width: nat, interval: int)
    requires interval > 0
  {
    var inTime := Publishes(log, m, from, from + width, false);
    CountPublishes(log, m, from, from + width) <= width / interval + |Terms(inTime)| + |ReAdds(inTime, m, from)|
  }

  // Every registration of `m` that was published asks for at least `interval`.
  predicate AsksFor(log: seq<Dispatch>, m: MonitorId, interval: int) {
    forall k :: 0 <= k < |log| && m in log[k].sent ==> log[k].sent[m].interval >= interval
  }

  ghost predicate PlainBoundHolds(expiry: int, interval: int, limit: int)
    requires interval > 0
  {
    forall s, acts, m, from, width: nat ::
      Initial(s) && Prompt(expiry, s, acts, limit) && AsksFor(Exec(expiry, s, acts).log, m, interval) ==>
        PlainBound(Exec(expiry, s, acts).log, m, from, width, interval)
  }

  lemma WithoutLateTerm(log: seq<Dispatch>, m: MonitorId, from: int, width: nat, interval: int)
    requires interval > 0 && AllInTime(log)
    requires var inTime := Publishes(log, m, from, from + width, false);
             var late := Publishes(log, m, from, from + width, true);
             CountPublishes(log, m, from, from + width) <=
               width / interval + |Terms(inTime)| + |ReAdds(inTime, m, from)| + |late|
    ensures PlainBound(log, m, from, width, interval)
  {
    NoneLate(log, m, from, from + width);
  }

  lemma {:induction false} PlainBoundWhenPrompt(expiry: int, s: State, acts: seq<Action>, m: MonitorId,
                                                from: int, width: nat, interval: int, limit: int)
    requires Initial(s) && Prompt(expiry, s, acts, limit) && limit <= expiry && interval > 0
    requires AsksFor(Exec(expiry, s, acts).log, m, interval)
    ensures PlainBound(Exec(expiry, s, acts).log, m, from, width, interval)
  {
    PromptIsInTime(expiry, s, acts, limit);
    FleetRateBound(expiry, s, acts, m, from, width, interval);
    WithoutLateTerm(Exec(expiry, s, acts).log, m, from, width, interval);
  }

  // ---- A dispatch that is just too late ----

  function Fresh(gen: nat, interval: int): Instance {
    Instance(Following, map[7 := Reg(interval, false, None, gen, -1)])
  }

  function Start(interval: int): State {
    State(0, Free, 0, 2, map[0 := Fresh(0, interval), 1 := Fresh(1, interval)], [], [])
  }

  lemma StartIsInitial(interval: int)
    ensures Initial(Start(interval))
  {
    var s := Start(interval);
    forall i, m | i in s.fleet && m in s.fleet[i].regs
      ensures m == 7 && s.fleet[i].regs[m] == Reg(interval, false, None, i, -1)
    {
      assert s.fleet[i] == Fresh(i, interval);
    }
  }

  // Instance 0 extends and stalls; the lock expires and instance 1 takes it; both dispatch.
  function Stall(expiry: nat): seq<Action> {
    [Lock(0, true), Extend(0, true), Wait(expiry), Lock(1, true), Extend(1, true), Send(1, {7}), Send(0, {7})]
  }

  // What the first `k` of these steps come to.
  ghost predicate After(expiry: nat, interval: int, k: nat, t: State) {
    k <= 7 && Exec(expiry, Start(interval), Stall(expiry)[..k]) == t
  }

  lemma Next(expiry: nat, interval: int, k: nat, t: State)
    requires k < 7 && After(expiry, interval, k, t)
    ensures After(expiry, interval, k + 1, Step(expiry, t, Stall(expiry)[k]))
  {
    assert Stall(expiry)[..k + 1][..k] == Stall(expiry)[..k];
  }

  function Stamped7(i: InstanceId, at: int, interval: int): Registry { map[7 := Reg(interval, false, Some(at), i, -1)] }

  lemma Stalled(expiry: nat, interval: int)
    requires expiry > 0
    ensures After(expiry, interval, 3, State(expiry, Held(0, 1, expiry), 1, 2,
              map[0 := Fresh(0, interval).(phase := Fenced(true)), 1 := Fresh(1, interval)], [], [Grant(0, 0, expiry)]))
  {
    var s0 := Start(interval);
    assert After(expiry, interval, 0, s0);
    Next(expiry, interval, 0, s0);
    var s1 := s0.(lease := Held(0, 1, expiry), terms := 1,
                  fleet := map[0 := Fresh(0, interval).(phase := Leading), 1 := Fresh(1, interval)]);
    assert After(expiry, interval, 1, s1);
    Next(expiry, interval, 1, s1);
    var s2 := s1.(fleet := map[0 := Fresh(0, interval).(phase := Fenced(true)), 1 := Fresh(1, interval)],
                  grants := [Grant(0, 0, expiry)]);
    assert After(expiry, interval, 2, s2);
    Next(expiry, interval, 2, s2);
  }

  function AtFence(gen: nat, interval: int): Instance { Fresh(gen, interval).(phase := Fenced(true)) }

  // Both are at the fence, the lock being instance 1's.
  function BothFenced(expiry: int, interval: int): State {
    State(expiry, Held(1, 2, expiry + expiry), 2, 2, map[0 := AtFence(0, interval), 1 := AtFence(1, interval)], [],
          [Grant(0, 0, expiry), Grant(1, expiry, expiry + expiry)])
  }

  lemma Overtaken(expiry: nat, interval: int)
    requires expiry > 0
    ensures After(expiry, interval, 5, BothFenced(expiry, interval))
  {
    Stalled(expiry, interval);
    var s3 := State(expiry, Held(0, 1, expiry), 1, 2,
                    map[0 := AtFence(0, interval), 1 := Fresh(1, interval)], [], [Grant(0, 0, expiry)]);
    Next(expiry, interval, 3, s3);
    var s4 := s3.(lease := Held(1, 2, expiry + expiry), terms := 2,
                  fleet := map[0 := AtFence(0, interval), 1 := Fresh(1, interval).(phase := Leading)]);
    assert After(expiry, interval, 4, s4);
    Next(expiry, interval, 4, s4);
    assert Step(expiry, s4, Stall(expiry)[4]) == BothFenced(expiry, interval);
  }

  function InTimeEntry(expiry: int, interval: int): Dispatch {
    Dispatch(1, expiry, Some(2), Stamped7(1, expiry, interval))
  }

  function LateEntry(expiry: int, interval: int): Dispatch { Dispatch(0, expiry, None, Stamped7(0, expiry, interval)) }

  // The first publish is in time, the second late, and both carry the same stamp.
  lemma BothPublish(expiry: nat, interval: int)
    requires expiry > 0
    ensures var t := Exec(expiry, Start(interval), Stall(expiry));
            t.now == expiry && t.log == [InTimeEntry(expiry, interval), LateEntry(expiry, interval)]
  {
    Overtaken(expiry, interval);
    var s5 := BothFenced(expiry, interval);
    Next(expiry, interval, 5, s5);
    var s6 := Step(expiry, s5, Send(1, {7}));
    assert s6.log[0].sent == Stamped7(1, expiry, interval);
    assert s6.log == [InTimeEntry(expiry, interval)] && s6.fleet[0] == AtFence(0, interval);
    Next(expiry, interval, 6, s6);
    var s7 := Step(expiry, s6, Send(0, {7}));
    assert s7.log[1].sent == Stamped7(0, expiry, interval);
    assert Stall(expiry)[..7] == Stall(expiry);
  }

  lemma StallIsPrompt(expiry: nat, interval: int, limit: int)
    requires 0 < expiry < limit
    ensures Prompt(expiry, Start(interval), Stall(expiry), limit)
  {
    var s, acts := Start(interval), Stall(expiry);
    BothPublish(expiry, interval);
    assert acts[..7] == acts && acts[..0] == [];
    forall j, k, i | 0 <= j < k < |acts| && Sends(acts[k], i) && FencedSince(expiry, s, acts, j, k, i)
      ensures NowAt(expiry, s, acts, k) - NowAt(expiry, s, acts, j) < limit
    {
      TimeIsMonotone(expiry, s, acts, 0, j);
      TimeIsMonotone(expiry, s, acts, k, 7);
    }
  }

  lemma PairTally(d: Dispatch, e: Dispatch, m: MonitorId, at: int)
    requires InWindow(d, m, at, at) && InWindow(e, m, at, at) && d.term.Some? && e.term.None?
    ensures CountPublishes([d, e], m, at, at) == 2 && Publishes([d, e], m, at, at, false) == [d]
    ensures |Terms([d])| == 1
  {
    var one, two := [d], [d, e];
    assert two[..|two| - 1] == one && one[..|one| - 1] == [];
    assert Publishes(one, m, at, at, false) == [] + [d];
    assert CountPublishes(one, m, at, at) == 1;
    assert one[0].term in Terms(one);
    assert Terms(one) == {d.term};
  }

  lemma TwoWhereOneIsAllowed(expiry: nat, interval: int)
    requires expiry > 0 && interval > 0
    ensures var log := Exec(expiry, Start(interval), Stall(expiry)).log;
            AsksFor(log, 7, interval) && !PlainBound(log, 7, expiry, 0, interval)
  {
    BothPublish(expiry, interval);
    var d := InTimeEntry(expiry, interval);
    PairTally(d, LateEntry(expiry, interval), 7, expiry);
    assert ReAdds([d], 7, expiry) == {};
  }

  /** The bound without late dispatches holds on every run whose dispatches are stamped less than
      `limit` after their Extend if and only if `limit` does not exceed the lock's lifetime. */
  lemma {:induction false} PlainBoundExactly(expiry: nat, interval: int, limit: int)
    requires expiry > 0 && interval > 0
    ensures PlainBoundHolds(expiry, interval, limit) <==> limit <= expiry
  {
    if limit <= expiry {
      forall s, acts, m, from, width: nat |
        Initial(s) && Prompt(expiry, s, acts, limit) && AsksFor(Exec(expiry, s, acts).log, m, interval)
        ensures PlainBound(Exec(expiry, s, acts).log, m, from, width, interval)
      {
        PlainBoundWhenPrompt(expiry, s, acts, m, from, width, interval, limit);
      }
    } else {
      StartIsInitial(interval);
      StallIsPrompt(expiry, interval, limit);
      TwoWhereOneIsAllowed(expiry, interval);
    }
  }
}
