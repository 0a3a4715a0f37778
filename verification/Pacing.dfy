/** The spacing of the publishes of one monitor by one instance that goes on dispatching, in any run of
    the fleet. */
module Pacing {
  import opened Wrappers
  import opened Fleet
  import opened Fencing

  function RegOf(t: State, i: InstanceId, m: MonitorId): Option<Reg> {
    if Registered(t, i, m) then Some(t.fleet[i].regs[m]) else None
  }

  // The dispatch that step `k` adds to the log, when it is one of `i`.
  function DispatchAt(expiry: int, s: State, acts: seq<Action>, k: nat, i: InstanceId): Option<Dispatch>
    requires k < |acts|
  {
    var t := Exec(expiry, s, acts[..k]);
    var t' := Exec(expiry, s, acts[..k + 1]);
    if |t'.log| == |t.log| + 1 && t'.log[|t.log|].inst == i then Some(t'.log[|t.log|]) else None
  }

  predicate PublishAt(expiry: int, s: State, acts: seq<Action>, k: nat, i: InstanceId, m: MonitorId)
    requires k < |acts|
  {
    DispatchAt(expiry, s, acts, k, i).Some? && m in DispatchAt(expiry, s, acts, k, i).value.sent
  }

  predicate GenBelow(t: State, i: InstanceId, m: MonitorId) {
    RegOf(t, i, m).Some? ==> RegOf(t, i, m).value.gen < t.gens
  }

  // What one step does to the registration of `m` on `i`, and to the log.
  lemma StepMoves(expiry: int, t: State, a: Action, i: InstanceId, m: MonitorId)
    requires GenBelow(t, i, m)
    ensures var t' := Step(expiry, t, a);
            var dispatches := a.Send? && a.i == i && i in t.fleet && t.fleet[i].phase.Fenced?;
            var r := RegOf(t, i, m);
            var publishes := dispatches && r.Some? && Due(r.value, t.now) && m in a.ok;
            && t.gens <= t'.gens && t.log <= t'.log && |t'.log| <= |t.log| + 1
            && (dispatches <==> |t'.log| == |t.log| + 1 && t'.log[|t.log|].inst == i)
            && (dispatches ==> t'.log[|t.log|].at == t.now && (m in t'.log[|t.log|].sent <==> publishes))
            && (publishes ==> RegOf(t', i, m) == Some(r.value.(last := Some(t.now)))
                              && t'.log[|t.log|].sent[m] == r.value.(last := Some(t.now)))
            && (!publishes ==> RegOf(t', i, m) == r || RegOf(t', i, m) == None || RegOf(t', i, m).value.gen == t.gens)
            && GenBelow(t', i, m)
  {
  }

  lemma {:induction false} GenBelowAt(expiry: int, s: State, acts: seq<Action>, k: nat, i: InstanceId, m: MonitorId)
    requires Initial(s) && k <= |acts|
    ensures GenBelow(Exec(expiry, s, acts[..k]), i, m)
  {
    if k > 0 {
      GenBelowAt(expiry, s, acts, k - 1, i, m);
      ExecPrefix(expiry, s, acts, k - 1);
      StepMoves(expiry, Exec(expiry, s, acts[..k - 1]), acts[k - 1], i, m);
    } else {
      assert acts[..0] == [];
    }
  }

  // The registration numbered `gen` has been replaced or removed.
  predicate Gone(t: State, i: InstanceId, m: MonitorId, gen: nat) {
    gen < t.gens && (RegOf(t, i, m).Some? ==> RegOf(t, i, m).value.gen > gen)
  }

  lemma {:induction false} GoneStays(expiry: int, s: State, acts: seq<Action>, j: nat, k: nat, i: InstanceId,
                                     m: MonitorId, gen: nat)
    requires Initial(s) && j <= k <= |acts| && Gone(Exec(expiry, s, acts[..j]), i, m, gen)
    ensures Gone(Exec(expiry, s, acts[..k]), i, m, gen)
  {
    if j < k {
      GoneStays(expiry, s, acts, j, k - 1, i, m, gen);
      GenBelowAt(expiry, s, acts, k - 1, i, m);
      ExecPrefix(expiry, s, acts, k - 1);
      StepMoves(expiry, Exec(expiry, s, acts[..k - 1]), acts[k - 1], i, m);
    }
  }

  /** From `p` to `q`, `i` dispatches at least every `d`, and the publishes of `m` go through. */
  ghost predicate Steady(expiry: int, s: State, acts: seq<Action>, i: InstanceId, m: MonitorId, p: nat, q: nat, d: int)
    requires p < q < |acts|
  {
    && (forall k :: p < k <= q ==> GoesThrough(acts[k], i, m))
    && (forall k :: p < k <= q && DispatchAt(expiry, s, acts, k, i).Some? ==>
          exists j :: p <= j < k && Follows(expiry, s, acts, j, k, i, d))
  }

  predicate GoesThrough(a: Action, i: InstanceId, m: MonitorId) { a.Send? && a.i == i ==> m in a.ok }

  predicate Follows(expiry: int, s: State, acts: seq<Action>, j: nat, k: nat, i: InstanceId, d: int)
    requires j < k < |acts|
  {
    var before, after := DispatchAt(expiry, s, acts, j, i), DispatchAt(expiry, s, acts, k, i);
    before.Some? && after.Some? && after.value.at - before.value.at <= d
  }

  lemma DispatchMoves(expiry: int, s: State, acts: seq<Action>, k: nat, i: InstanceId, m: MonitorId)
    requires Initial(s) && k < |acts|
    ensures var t, t' := Exec(expiry, s, acts[..k]), Exec(expiry, s, acts[..k + 1]);
            var r := RegOf(t, i, m);
            var at := DispatchAt(expiry, s, acts, k, i);
            && (at.Some? ==> acts[k].Send? && acts[k].i == i && at.value.at == t.now)
            && (PublishAt(expiry, s, acts, k, i, m) ==>
                  && r.Some? && Due(r.value, t.now) && RegOf(t', i, m) == Some(r.value.(last := Some(t.now)))
                  && at.value.sent[m] == r.value.(last := Some(t.now)))
            && (at.Some? && GoesThrough(acts[k], i, m) && r.Some? && Due(r.value, t.now) ==>
                  PublishAt(expiry, s, acts, k, i, m))
            && (!PublishAt(expiry, s, acts, k, i, m) && r.Some? ==>
                  RegOf(t', i, m) == r || Gone(t', i, m, r.value.gen))
            && GenBelow(t, i, m)
  {
    GenBelowAt(expiry, s, acts, k, i, m);
    ExecPrefix(expiry, s, acts, k);
    StepMoves(expiry, Exec(expiry, s, acts[..k]), acts[k], i, m);
  }

  // A registration that is still there at the next publish has not moved since the last one.
  lemma {:induction false} RegStays(expiry: int, s: State, acts: seq<Action>, i: InstanceId, m: MonitorId,
                                   p: nat, q: nat, k: nat, r: Reg)
    requires Initial(s) && p < k <= q < |acts| && RegOf(Exec(expiry, s, acts[..p + 1]), i, m) == Some(r)
    requires PublishAt(expiry, s, acts, q, i, m) && DispatchAt(expiry, s, acts, q, i).value.sent[m].gen == r.gen
    requires forall l :: p < l < q ==> !PublishAt(expiry, s, acts, l, i, m)
    ensures RegOf(Exec(expiry, s, acts[..k]), i, m) == Some(r)
  {
    if k > p + 1 {
      RegStays(expiry, s, acts, i, m, p, q, k - 1, r);
      DispatchMoves(expiry, s, acts, k - 1, i, m);
      if Gone(Exec(expiry, s, acts[..k]), i, m, r.gen) {
        GoneStays(expiry, s, acts, k, q, i, m, r.gen);
        DispatchMoves(expiry, s, acts, q, i, m);
      }
    }
  }

  /** Two successive publishes of one registration are at least its interval apart, and less than the
      interval and `d` when dispatches follow each other within `d` and publishes go through. */
  lemma {:induction false} SuccessivePublishesPaced(expiry: int, s: State, acts: seq<Action>, i: InstanceId,
                                                    m: MonitorId, p: nat, q: nat, d: int)
    requires Initial(s) && p < q < |acts|
    requires PublishAt(expiry, s, acts, p, i, m) && PublishAt(expiry, s, acts, q, i, m)
    requires forall k :: p < k < q ==> !PublishAt(expiry, s, acts, k, i, m)
    requires var a, b := DispatchAt(expiry, s, acts, p, i).value, DispatchAt(expiry, s, acts, q, i).value;
             a.sent[m].gen == b.sent[m].gen && a.sent[m].interval > 0
    requires Steady(expiry, s, acts, i, m, p, q, d)
    ensures var a, b := DispatchAt(expiry, s, acts, p, i).value, DispatchAt(expiry, s, acts, q, i).value;
            a.sent[m].interval <= b.at - a.at < a.sent[m].interval + d
  {
    DispatchMoves(expiry, s, acts, p, i, m);
    var r := RegOf(Exec(expiry, s, acts[..p + 1]), i, m).value;
    RegStays(expiry, s, acts, i, m, p, q, q, r);
    DispatchMoves(expiry, s, acts, q, i, m);
    var j :| p <= j < q && Follows(expiry, s, acts, j, q, i, d);
    if j > p {
      RegStays(expiry, s, acts, i, m, p, q, j, r);
      DispatchMoves(expiry, s, acts, j, i, m);
      assert GoesThrough(acts[j], i, m);
    }
  }
}
