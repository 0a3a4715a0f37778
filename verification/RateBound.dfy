/** How often one monitor is checked: a bound on the publishes of the whole fleet over any window of
    time, and the spacing within one registration. */
module RateBound {
  import opened Wrappers
  import opened Fleet

  // ---- What holds of any two dispatches of one monitor, in the order they were made ----

  predicate Ordered(m: MonitorId, d: Dispatch, e: Dispatch)
    requires m in d.sent && m in e.sent
  {
    var p, q := d.sent[m], e.sent[m];
    && d.at <= e.at
    // One registration: spaced by its interval.
    && (p.gen == q.gen ==> d.inst == e.inst && e.at - d.at >= q.interval)
    // One instance: registrations replace each other, the later one added in between.
    && (d.inst == e.inst && p.gen != q.gen ==> p.gen < q.gen && d.at <= q.addedAt)
    // Both in time: the tenures of the lock follow each other.
    && (d.term.Some? && e.term.Some? ==> d.term.value <= e.term.value)
    && (d.term.Some? && e.term == d.term ==> d.inst == e.inst)
  }

  ghost predicate LogOrdered(m: MonitorId, log: seq<Dispatch>) {
    forall j, k :: 0 <= j < k < |log| && m in log[j].sent && m in log[k].sent ==> Ordered(m, log[j], log[k])
  }

  // What the live registration `r` of `m` on `i` has to do with a past dispatch `d` of `m`.
  predicate Follows(m: MonitorId, d: Dispatch, i: InstanceId, r: Reg)
    requires m in d.sent
  {
    var p := d.sent[m];
    && (p.gen == r.gen ==> d.inst == i && p.interval == r.interval && r.last.Some? && d.at <= r.last.value)
    && (d.inst == i && p.gen != r.gen ==> p.gen < r.gen && d.at <= r.addedAt)
  }

  ghost predicate LogBehind(m: MonitorId, s: State) {
    forall j :: 0 <= j < |s.log| && m in s.log[j].sent ==>
      && s.log[j].at <= s.now && s.log[j].sent[m].gen < s.gens
      && (s.log[j].term.Some? ==>
            s.log[j].term.value <= s.terms
            && (s.lease.Held? && s.log[j].term.value == s.lease.term ==> s.log[j].inst == s.lease.owner))
  }

  ghost predicate RegsFollow(m: MonitorId, s: State) {
    forall j, i :: 0 <= j < |s.log| && m in s.log[j].sent && Registered(s, i, m) ==>
      Follows(m, s.log[j], i, s.fleet[i].regs[m])
  }

  ghost predicate RegsSound(m: MonitorId, s: State) {
    && (s.lease.Held? ==> s.lease.term == s.terms)
    && (forall i :: Registered(s, i, m) ==>
          var r := s.fleet[i].regs[m];
          r.gen < s.gens && r.addedAt <= s.now && (r.last.Some? ==> r.last.value <= s.now))
    && (forall i, i' :: Registered(s, i, m) && Registered(s, i', m) && i != i' ==>
          s.fleet[i].regs[m].gen != s.fleet[i'].regs[m].gen)
  }

  ghost predicate Inv(m: MonitorId, s: State) {
    LogOrdered(m, s.log) && LogBehind(m, s) && RegsFollow(m, s) && RegsSound(m, s)
  }

  // What a dispatch does to the log and to the registrations of `m`.
  lemma SendMoves(expiry: int, m: MonitorId, s: State, a: Action)
    requires a.Send? && a.i in s.fleet && s.fleet[a.i].phase.Fenced?
    ensures var s' := Step(expiry, s, a);
            && |s'.log| == |s.log| + 1 && s'.log == s.log + [s'.log[|s.log|]]
            && s'.log[|s.log|].inst == a.i && s'.log[|s.log|].at == s.now
            && (m in s'.log[|s.log|].sent ==>
                  && Registered(s, a.i, m) && s'.fleet[a.i].regs[m] == s.fleet[a.i].regs[m].(last := Some(s.now))
                  && s'.log[|s.log|].sent[m] == s'.fleet[a.i].regs[m]
                  && Due(s.fleet[a.i].regs[m], s.now))
            && (forall i :: Registered(s', i, m) ==>
                  && Registered(s, i, m)
                  && (s'.fleet[i].regs[m] == s.fleet[i].regs[m]
                      || (i == a.i && m in s'.log[|s.log|].sent)))
  {
  }

  lemma SendKeepsInv(expiry: int, m: MonitorId, s: State, a: Action)
    requires Inv(m, s) && a.Send?
    ensures Inv(m, Step(expiry, s, a))
  {
    var s' := Step(expiry, s, a);
    var i, n := a.i, |s.log|;
    if i in s.fleet && s.fleet[i].phase.Fenced? {
      SendMoves(expiry, m, s, a);
      forall j | 0 <= j < n && m in s'.log[j].sent && m in s'.log[n].sent
        ensures Ordered(m, s'.log[j], s'.log[n])
      {
        assert Follows(m, s.log[j], i, s.fleet[i].regs[m]);
      }
      forall j, i' | 0 <= j < |s'.log| && m in s'.log[j].sent && Registered(s', i', m)
        ensures Follows(m, s'.log[j], i', s'.fleet[i'].regs[m])
      {
        assert Registered(s, i', m);
        if j < n { assert Follows(m, s.log[j], i', s.fleet[i'].regs[m]); }
      }
      forall i1, i2 | Registered(s', i1, m) && Registered(s', i2, m) && i1 != i2
        ensures s'.fleet[i1].regs[m].gen != s'.fleet[i2].regs[m].gen
      {
        assert Registered(s, i1, m) && Registered(s, i2, m);
      }
      assert LogBehind(m, s');
    }
  }

  lemma OtherStepsKeepInv(expiry: int, m: MonitorId, s: State, a: Action)
    requires Inv(m, s) && !a.Send?
    ensures Inv(m, Step(expiry, s, a))
  {
    var s' := Step(expiry, s, a);
    assert s'.log == s.log && s'.gens >= s.gens && s'.terms >= s.terms;
    forall i | Registered(s', i, m)
      ensures (a.Add? && a.i == i && a.m == m && s'.fleet[i].regs[m] == Reg(a.interval, a.paused, None, s.gens, s.now))
              || (Registered(s, i, m) && s'.fleet[i].regs[m] == s.fleet[i].regs[m])
    {
    }
  }

  lemma {:induction false} ExecKeepsInv(expiry: int, m: MonitorId, s: State, acts: seq<Action>)
    requires Inv(m, s)
    ensures Inv(m, Exec(expiry, s, acts))
  {
    if acts != [] {
      ExecKeepsInv(expiry, m, s, acts[..|acts| - 1]);
      var s', a := Exec(expiry, s, acts[..|acts| - 1]), acts[|acts| - 1];
      if a.Send? { SendKeepsInv(expiry, m, s', a); } else { OtherStepsKeepInv(expiry, m, s', a); }
    }
  }

  lemma InitialInv(m: MonitorId, s: State)
    requires Initial(s)
    ensures Inv(m, s)
  {
    forall i, i' | Registered(s, i, m) && Registered(s, i', m) && i != i'
      ensures s.fleet[i].regs[m].gen != s.fleet[i'].regs[m].gen
    {
    }
  }

  /** Two publishes of one registration are at least its interval apart, in every run. */
  lemma RegistrationSpacing(expiry: int, s: State, acts: seq<Action>, m: MonitorId, j: nat, k: nat)
    requires Initial(s)
    requires var log := Exec(expiry, s, acts).log;
             j < k < |log| && m in log[j].sent && m in log[k].sent && log[j].sent[m].gen == log[k].sent[m].gen
    ensures var log := Exec(expiry, s, acts).log;
            log[j].inst == log[k].inst && log[k].at - log[j].at >= log[k].sent[m].interval
  {
    InitialInv(m, s);
    ExecKeepsInv(expiry, m, s, acts);
    var log := Exec(expiry, s, acts).log;
    assert Ordered(m, log[j], log[k]);
  }

  // ---- Counting over a window ----

  predicate InWindow(d: Dispatch, m: MonitorId, from: int, to: int) { m in d.sent && from <= d.at <= to }

  // The dispatches of `m` stamped within [from, to], made in time or made late.
  function Publishes(log: seq<Dispatch>, m: MonitorId, from: int, to: int, late: bool): seq<Dispatch> {
    if log == [] then []
    else
      var d := log[|log| - 1];
      var earlier := Publishes(log[..|log| - 1], m, from, to, late);
      if InWindow(d, m, from, to) && (d.term.None? <==> late) then earlier + [d] else earlier
  }

  function CountPublishes(log: seq<Dispatch>, m: MonitorId, from: int, to: int): nat {
    if log == [] then 0
    else
      CountPublishes(log[..|log| - 1], m, from, to) + (if InWindow(log[|log| - 1], m, from, to) then 1 else 0)
  }

  lemma {:induction false} CountSplits(log: seq<Dispatch>, m: MonitorId, from: int, to: int)
    ensures CountPublishes(log, m, from, to) ==
            |Publishes(log, m, from, to, false)| + |Publishes(log, m, from, to, true)|
  {
    if log != [] { CountSplits(log[..|log| - 1], m, from, to); }
  }

  ghost predicate InTime(m: MonitorId, from: int, to: int, q: seq<Dispatch>) {
    && (forall k :: 0 <= k < |q| ==> InWindow(q[k], m, from, to) && q[k].term.Some?)
    && (forall j, k :: 0 <= j < k < |q| ==> Ordered(m, q[j], q[k]))
  }

  lemma {:induction false} PublishesInTime(log: seq<Dispatch>, m: MonitorId, from: int, to: int)
    requires LogOrdered(m, log)
    ensures var q := Publishes(log, m, from, to, false);
            InTime(m, from, to, q) && forall k :: 0 <= k < |q| ==> q[k] in log
  {
    if log != [] {
      var n := |log| - 1;
      PublishesInTime(log[..n], m, from, to);
      var q := Publishes(log[..n], m, from, to, false);
      forall k | 0 <= k < |q| && m in log[n].sent ensures Ordered(m, q[k], log[n]) {
        var j :| 0 <= j < n && log[..n][j] == q[k];
      }
    }
  }

  // The tenures of the lock in which the dispatches of `q` were made.
  function Terms(q: seq<Dispatch>): set<Option<nat>> { set k | 0 <= k < |q| :: q[k].term }

  // The registrations of `m` used in `q` that were added at `from` or later.
  function ReAdds(q: seq<Dispatch>, m: MonitorId, from: int): set<nat> {
    set k | 0 <= k < |q| && m in q[k].sent && q[k].sent[m].addedAt >= from :: q[k].sent[m].gen
  }

  predicate SameTenure(m: MonitorId, p: Dispatch, r: Dispatch)
    requires m in p.sent && m in r.sent
  {
    p.term == r.term && p.sent[m].gen == r.sent[m].gen
  }

  lemma KeysOfLast(m: MonitorId, from: int, q: seq<Dispatch>)
    requires |q| > 0 && m in q[|q| - 1].sent
    ensures var n := |q| - 1; var r := q[n];
            && Terms(q) == Terms(q[..n]) + {r.term}
            && ReAdds(q, m, from) ==
                 ReAdds(q[..n], m, from) + (if r.sent[m].addedAt >= from then {r.sent[m].gen} else {})
  {
    var n := |q| - 1;
    assert forall k :: 0 <= k < n ==> q[..n][k] == q[k];
  }

  lemma NewTerm(m: MonitorId, from: int, to: int, q: seq<Dispatch>)
    requires |q| > 1 && InTime(m, from, to, q) && q[|q| - 2].term != q[|q| - 1].term
    ensures q[|q| - 1].term !in Terms(q[..|q| - 1])
  {
    var n := |q| - 1;
    forall k | 0 <= k < n ensures q[..n][k].term != q[n].term {
      assert Ordered(m, q[n - 1], q[n]);
      if k < n - 1 { assert Ordered(m, q[k], q[n - 1]); }
    }
  }

  lemma NewRegistration(m: MonitorId, from: int, to: int, q: seq<Dispatch>)
    requires |q| > 1 && InTime(m, from, to, q) && q[|q| - 2].term == q[|q| - 1].term
    requires q[|q| - 2].sent[m].gen != q[|q| - 1].sent[m].gen
    ensures q[|q| - 1].sent[m].addedAt >= from
    ensures q[|q| - 1].sent[m].gen !in ReAdds(q[..|q| - 1], m, from)
  {
    var n := |q| - 1;
    assert Ordered(m, q[n - 1], q[n]);
    forall k | 0 <= k < n ensures q[..n][k].sent[m].gen != q[n].sent[m].gen {
      assert Ordered(m, q[k], q[n]);
      if k < n - 1 { assert Ordered(m, q[k], q[n - 1]); }
    }
  }

  // A dispatch under a new tenure or a new registration uses one that was not used before.
  lemma NewKey(m: MonitorId, from: int, to: int, q: seq<Dispatch>)
    requires |q| > 1 && InTime(m, from, to, q)
    ensures var n := |q| - 1;
            |Terms(q)| + |ReAdds(q, m, from)| >=
              |Terms(q[..n])| + |ReAdds(q[..n], m, from)| + (if SameTenure(m, q[n - 1], q[n]) then 0 else 1)
  {
    var n := |q| - 1;
    KeysOfLast(m, from, q);
    SubsetSize(Terms(q[..n]), Terms(q));
    SubsetSize(ReAdds(q[..n], m, from), ReAdds(q, m, from));
    if q[n - 1].term != q[n].term {
      NewTerm(m, from, to, q);
    } else if !SameTenure(m, q[n - 1], q[n]) {
      NewRegistration(m, from, to, q);
    }
  }

  lemma {:induction false} SpanBound(m: MonitorId, from: int, to: int, q: seq<Dispatch>, interval: int)
    requires |q| > 0 && interval > 0 && InTime(m, from, to, q)
    requires forall k :: 0 <= k < |q| ==> q[k].sent[m].interval >= interval
    ensures interval * (|q| - |Terms(q)| - |ReAdds(q, m, from)|) <= q[|q| - 1].at - q[0].at
  {
    var n := |q| - 1;
    if n == 0 {
      KeysOfLast(m, from, q);
      assert q[n].term in Terms(q);
      assert |Terms(q)| >= 1;
      NonPositive(interval, |q| - |Terms(q)| - |ReAdds(q, m, from)|);
    } else {
      SpanBound(m, from, to, q[..n], interval);
      NewKey(m, from, to, q);
      assert Ordered(m, q[n - 1], q[n]);
      Grow(interval, n - |Terms(q[..n])| - |ReAdds(q[..n], m, from)|, |q| - |Terms(q)| - |ReAdds(q, m, from)|,
           if SameTenure(m, q[n - 1], q[n]) then 1 else 0);
    }
  }

  lemma NonPositive(interval: int, x: int)
    requires interval > 0 && x <= 0
    ensures interval * x <= 0
  {
  }

  lemma Grow(interval: int, x: int, y: int, d: int)
    requires interval > 0 && y <= x + d
    ensures interval * y <= interval * x + interval * d
  {
    assert interval * (x + d - y) >= 0;
    assert interval * (x + d - y) == interval * x + interval * d - interval * y;
  }

  lemma AtMostQuotient(interval: int, x: int, width: int)
    requires interval > 0 && interval * x <= width
    ensures x <= width / interval
  {
    if x > width / interval {
      Grow(interval, x, width / interval + 1, 0);
    }
  }

  /** The fleet-wide rate bound. Over a window of length `width`, a monitor whose registrations ask
      for at least `interval` is published, by all instances together, at most
      width / interval times, plus once for every tenure of the lock that published it in the
      window, once for every re-registration in it, and once for every dispatch made after its
      instance had lost the lock. */
  lemma FleetRateBound(expiry: int, s: State, acts: seq<Action>, m: MonitorId, from: int, width: nat, interval: int)
    requires Initial(s) && interval > 0
    requires var log := Exec(expiry, s, acts).log;
             forall k :: 0 <= k < |log| && m in log[k].sent ==> log[k].sent[m].interval >= interval
    ensures var log := Exec(expiry, s, acts).log;
            var inTime := Publishes(log, m, from, from + width, false);
            var late := Publishes(log, m, from, from + width, true);
            CountPublishes(log, m, from, from + width) <=
              width / interval + |Terms(inTime)| + |ReAdds(inTime, m, from)| + |late|
  {
    InitialInv(m, s);
    ExecKeepsInv(expiry, m, s, acts);
    var log, to := Exec(expiry, s, acts).log, from + width;
    CountSplits(log, m, from, to);
    PublishesInTime(log, m, from, to);
    var q := Publishes(log, m, from, to, false);
    if q == [] {
      NonNegativeQuotient(width, interval);
    } else {
      forall k | 0 <= k < |q| ensures q[k].sent[m].interval >= interval {
        assert q[k] in log;
      }
      SpanBound(m, from, to, q, interval);
      AtMostQuotient(interval, |q| - |Terms(q)| - |ReAdds(q, m, from)|, width);
    }
  }

  lemma NonNegativeQuotient(width: nat, interval: int)
    requires interval > 0
    ensures width / interval >= 0
  {
  }
}
