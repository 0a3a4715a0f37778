/** `runLockedLoop`: periodic jobs on several instances, each run under an expiring lock that is
    taken before the job and released after it, and never extended. */
module LockedLoop {
  import opened Fleet

  type Jobs = map<InstanceId, int>  // the instances whose job is running, and since when

  datatype Loop = Loop(now: int, lease: Lease, terms: nat, jobs: Jobs)

  // A crash ends the job and leaves the lock to expire.
  datatype Event = Pass(d: nat) | Begin(i: InstanceId) | End(i: InstanceId) | Crash(i: InstanceId)

  // A tick that finds the lock taken is skipped; an event that is not possible changes nothing.
  function Next(expiry: int, l: Loop, e: Event): Loop {
    match e
    case Pass(d) => l.(now := l.now + d)
    case Begin(i) =>
      if i !in l.jobs && Available(l.lease, l.now) then
        l.(lease := Held(i, l.terms + 1, l.now + expiry), terms := l.terms + 1, jobs := l.jobs[i := l.now])
      else l
    case End(i) =>
      if i in l.jobs then
        l.(jobs := l.jobs - {i}, lease := if HeldBy(l.lease, i, l.now) then Free else l.lease)
      else l
    case Crash(i) => l.(jobs := l.jobs - {i})
  }

  function Play(expiry: int, l: Loop, es: seq<Event>): Loop {
    if es == [] then l else Next(expiry, Play(expiry, l, es[..|es| - 1]), es[|es| - 1])
  }

  predicate Idle(l: Loop) { l.lease.Free? && l.jobs == map[] }

  // No job has yet been running as long as the lock lives.
  predicate AllShort(expiry: int, l: Loop) {
    forall i :: i in l.jobs ==> l.now - l.jobs[i] < expiry
  }

  predicate AtMostOneJob(l: Loop) {
    forall i, j :: i in l.jobs && j in l.jobs ==> i == j
  }

  ghost predicate Guarded(expiry: int, l: Loop) {
    forall i :: i in l.jobs ==> l.lease.Held? && l.lease.owner == i && l.lease.until == l.jobs[i] + expiry
  }

  /** If no job ever runs as long as the lock lives, no two jobs ever run at once. */
  lemma {:induction false} ShortJobsNeverOverlap(expiry: int, l: Loop, es: seq<Event>)
    requires Idle(l)
    requires forall k :: 0 <= k <= |es| ==> AllShort(expiry, Play(expiry, l, es[..k]))
    ensures Guarded(expiry, Play(expiry, l, es)) && AtMostOneJob(Play(expiry, l, es))
  {
    if es != [] {
      var n := |es| - 1;
      assert forall k :: 0 <= k <= n ==> es[..n][..k] == es[..k];
      ShortJobsNeverOverlap(expiry, l, es[..n]);
      assert AllShort(expiry, Play(expiry, l, es[..n]));
    }
  }

  /** A job that ends while its lock is alive makes room at once: the next tick of any instance that is
      not running one starts. */
  lemma EndMakesRoom(expiry: int, l: Loop, i: InstanceId, j: InstanceId)
    requires Guarded(expiry, l) && AllShort(expiry, l) && i in l.jobs && (j == i || j !in l.jobs)
    ensures var l' := Next(expiry, Next(expiry, l, End(i)), Begin(j));
            j in l'.jobs && l'.jobs[j] == l.now && l'.lease == Held(j, l.terms + 1, l.now + expiry)
  {
    assert l.now - l.jobs[i] < expiry;
  }

  /** A crashed job blocks the others only until its lock expires; then any instance can start, also the one
      that crashed. */
  lemma CrashIsOutlived(expiry: int, l: Loop, i: InstanceId, d: nat, j: InstanceId)
    requires Guarded(expiry, l) && i in l.jobs && (j == i || j !in l.jobs)
    ensures var l' := Next(expiry, Next(expiry, Next(expiry, l, Crash(i)), Pass(d)), Begin(j));
            j in l'.jobs <==> l.now + d >= l.jobs[i] + expiry
  {
    assert l.lease.until == l.jobs[i] + expiry;
  }

  /** The bound is tight: a job that does run that long can be joined by another one. */
  lemma LongJobsOverlap(expiry: nat)
    ensures exists es :: !AtMostOneJob(Play(expiry, Loop(0, Free, 0, map[]), es))
  {
    var l0 := Loop(0, Free, 0, map[]);
    var es := [Begin(0), Pass(expiry), Begin(1)];
    assert es[..2] == [Begin(0), Pass(expiry)] && es[..2][..1] == [Begin(0)] && es[..2][..1][..0] == [];
    var l1 := Next(expiry, l0, es[0]);
    assert Play(expiry, l0, es[..2][..1]) == l1;
    var l2 := Next(expiry, l1, es[1]);
    assert Play(expiry, l0, es[..2]) == l2;
    var l3 := Next(expiry, l2, es[2]);
    assert Play(expiry, l0, es) == l3;
    assert 0 in l3.jobs && 1 in l3.jobs;
  }
}
