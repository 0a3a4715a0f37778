/** The scheduler of one instance as an object. A tick of it is, whatever the other instances are
    doing, a short sequence of actions of the fleet of module `Fleet`. */
module LeaderScheduler {
  import opened Wrappers
  import opened Fleet

  /** The key in Redis that all instances contend for, with the clock that expires it. */
  class LeaseServer {
    const expiry: int
    var now: int
    var lease: Lease
    var terms: nat

    constructor (expiry: int, now: int)
      ensures this.expiry == expiry && this.now == now && lease == Free && terms == 0
    {
      this.expiry, this.now, lease, terms := expiry, now, Free, 0;
    }

    method Pass(d: nat)
      modifies this
      ensures now == old(now) + d && lease == old(lease) && terms == old(terms)
    {
      now := now + d;
    }

    method Lock(i: InstanceId) returns (got: bool)
      modifies this
      ensures now == old(now) && (got <==> old(lease).Free? || old(lease).until <= now)
      ensures got ==> lease == Held(i, old(terms) + 1, now + expiry) && terms == old(terms) + 1
      ensures !got ==> lease == old(lease) && terms == old(terms)
    {
      got := Available(lease, now);
      if got {
        terms := terms + 1;
        lease := Held(i, terms, now + expiry);
      }
    }

    method Extend(i: InstanceId) returns (ok: bool)
      modifies this
      ensures now == old(now) && terms == old(terms)
      ensures ok <==> old(lease).Held? && old(lease).owner == i && now < old(lease).until
      ensures lease == if ok then Held(i, old(lease).term, now + expiry) else old(lease)
    {
      ok := HeldBy(lease, i, now);
      if ok { lease := lease.(until := now + expiry); }
    }

    method Unlock(i: InstanceId)
      modifies this
      ensures now == old(now) && terms == old(terms)
      ensures lease == if old(lease).Held? && old(lease).owner == i && now < old(lease).until then Free else old(lease)
    {
      if HeldBy(lease, i, now) { lease := Free; }
    }
  }

  // The part of a fleet state that instance `i` and the lock are.
  predicate Shows(t: State, i: InstanceId, now: int, lease: Lease, terms: nat, phase: Phase, regs: Registry) {
    && t.now == now && t.lease == lease && t.terms == terms
    && i in t.fleet && t.fleet[i] == Instance(phase, regs)
  }

  /** How the calls of one tick go: what Lock and Extend answer, how long the instance stalls between
      the fence and reading the clock, and which publishes go through. */
  datatype TickIo = TickIo(lock: bool, extend: bool, stall: nat, sent: set<MonitorId>)

  function TickActions(i: InstanceId, leader: bool, fenced: bool, io: TickIo): seq<Action> {
    if !leader then [Lock(i, io.lock)]
    else if !fenced then [Extend(i, io.extend)]
    else [Extend(i, io.extend), Wait(io.stall), Send(i, io.sent)]
  }

  lemma Unfold1(expiry: int, t: State, a: Action)
    ensures Exec(expiry, t, [a]) == Step(expiry, t, a)
  {
    assert [a][..0] == [];
  }

  lemma Unfold3(expiry: int, t: State, a: Action, b: Action, c: Action)
    ensures Exec(expiry, t, [a, b, c]) == Step(expiry, Step(expiry, Step(expiry, t, a), b), c)
  {
    assert [a, b, c][..2] == [a, b] && [a, b][..1] == [a];
    Unfold1(expiry, t, a);
  }

  // A tick that asks for the lock, one that loses it or does not hear that it holds it, and one that
  // dispatches.
  lemma FollowingTick(expiry: int, t: State, i: InstanceId, io: TickIo, now: int, lease: Lease, terms: nat,
                      regs: Registry)
    requires Shows(t, i, now, lease, terms, Following, regs)
    ensures var t' := Exec(expiry, t, TickActions(i, false, false, io));
            && t'.log == t.log
            && if Available(lease, now) then
                 Shows(t', i, now, Held(i, terms + 1, now + expiry), terms + 1,
                       if io.lock then Leading else Following, regs)
               else Shows(t', i, now, lease, terms, Following, regs)
  {
    Unfold1(expiry, t, Lock(i, io.lock));
  }

  lemma LosingTick(expiry: int, t: State, i: InstanceId, io: TickIo, now: int, lease: Lease, terms: nat, regs: Registry)
    requires Shows(t, i, now, lease, terms, Leading, regs) && !(HeldBy(lease, i, now) && io.extend)
    ensures var t' := Exec(expiry, t, TickActions(i, true, false, io));
            && t'.log == t.log
            && Shows(t', i, now, if HeldBy(lease, i, now) then lease.(until := now + expiry) else lease, terms,
                     Following, regs)
  {
    Unfold1(expiry, t, Extend(i, io.extend));
  }

  lemma DispatchingTick(expiry: int, t: State, i: InstanceId, io: TickIo, now: int, lease: Lease, terms: nat,
                        regs: Registry)
    requires Shows(t, i, now, lease, terms, Leading, regs) && HeldBy(lease, i, now) && io.extend
    ensures var t' := Exec(expiry, t, TickActions(i, true, true, io));
            && |t'.log| == |t.log| + 1 && t.log <= t'.log
            && t'.log[|t.log|].sent.Keys == Dispatched(regs, now + io.stall, io.sent)
            && Shows(t', i, now + io.stall, lease.(until := now + expiry), terms, Leading,
                     AfterDispatch(regs, now + io.stall, io.sent))
  {
    Unfold3(expiry, t, Extend(i, io.extend), Wait(io.stall), Send(i, io.sent));
  }

  // All of a pass but `todo` is done: `monitors` is stamped and `published` went out.
  ghost predicate Pass(before: Registry, todo: set<MonitorId>, now: int, ok: set<MonitorId>,
                       monitors: Registry, published: multiset<MonitorId>) {
    && monitors.Keys == before.Keys && todo <= before.Keys
    && (forall m :: m in before ==> monitors[m] == if m in todo then before[m] else Stamped(before[m], now, m in ok))
    && published == multiset(Dispatched(before, now, ok) - todo)
  }

  lemma PassOne(before: Registry, todo: set<MonitorId>, now: int, ok: set<MonitorId>,
                monitors: Registry, published: multiset<MonitorId>, m: MonitorId)
    requires Pass(before, todo, now, ok, monitors, published) && m in todo
    ensures monitors[m] == before[m]
    ensures if Due(before[m], now) && m in ok then
              Pass(before, todo - {m}, now, ok, monitors[m := before[m].(last := Some(now))], published + multiset{m})
            else Pass(before, todo - {m}, now, ok, monitors, published)
  {
    var done := Dispatched(before, now, ok);
    if Due(before[m], now) && m in ok {
      assert done - (todo - {m}) == (done - todo) + {m};
    } else {
      assert done - (todo - {m}) == done - todo;
    }
  }

  lemma PassDone(before: Registry, now: int, ok: set<MonitorId>, monitors: Registry, published: multiset<MonitorId>)
    requires Pass(before, {}, now, ok, monitors, published)
    ensures monitors == AfterDispatch(before, now, ok) && published == multiset(Dispatched(before, now, ok))
  {
    assert Dispatched(before, now, ok) - {} == Dispatched(before, now, ok);
  }

  class Scheduler {
    const mutex: LeaseServer
    const id: InstanceId
    var monitors: Registry
    var isLeader: bool

    constructor (mutex: LeaseServer, id: InstanceId)
      ensures this.mutex == mutex && this.id == id && monitors == map[] && !isLeader
    {
      this.mutex, this.id, monitors, isLeader := mutex, id, map[], false;
    }

    /** Registers or replaces the monitor, which is due at once if it is not paused. In any fleet that
        this instance is part of it is the `Add` of the fleet. `gen` and `at` say which Add this is and
        when; only statements about runs read them. */
    method Add(m: MonitorId, interval: int, paused: bool, gen: nat, at: int)
      modifies this`monitors
      ensures m in monitors && forall now :: Due(monitors[m], now) <==> !paused
      ensures monitors[m].interval == interval && monitors[m].paused == paused && monitors[m].last == None
      ensures forall k :: k != m ==> (k in monitors <==> k in old(monitors)) &&
                                     (k in monitors ==> monitors[k] == old(monitors[k]))
      ensures forall t, phase ::
                Shows(t, id, at, mutex.lease, mutex.terms, phase, old(monitors)) && t.gens == gen ==>
                  Shows(Step(mutex.expiry, t, Action.Add(id, m, interval, paused)), id, at, mutex.lease, mutex.terms,
                        phase, monitors)
    {
      monitors := monitors[m := Reg(interval, paused, None, gen, at)];
    }

    /** Removes the monitor, which no dispatch then publishes. In any fleet that this instance is part of
        it is the `Remove` of the fleet. */
    method Remove(m: MonitorId)
      modifies this`monitors
      ensures m !in monitors && forall now, sent :: m !in Dispatched(monitors, now, sent)
      ensures forall k :: k != m ==> (k in monitors <==> k in old(monitors)) &&
                                     (k in monitors ==> monitors[k] == old(monitors[k]))
      ensures forall t, phase ::
                Shows(t, id, mutex.now, mutex.lease, mutex.terms, phase, old(monitors)) ==>
                  Shows(Step(mutex.expiry, t, Action.Remove(id, m)), id, mutex.now, mutex.lease, mutex.terms,
                        phase, monitors)
    {
      monitors := monitors - {m};
    }

    /** One pass over the registry, in any order: each due, unpaused monitor is published once, and
        those whose publish went through are stamped. */
    method DispatchDueChecks(now: int, ok: set<MonitorId>) returns (published: seq<MonitorId>)
      modifies this`monitors
      ensures monitors == AfterDispatch(old(monitors), now, ok)
      ensures multiset(published) == multiset(Dispatched(old(monitors), now, ok))
      ensures monitors.Keys == old(monitors).Keys && forall m :: m in published ==> m in monitors
      ensures forall m :: m in monitors ==>
                var r := old(monitors)[m];
                var goes := !r.paused && (r.last.None? || now - r.last.value >= r.interval) && m in ok;
                && multiset(published)[m] == (if goes then 1 else 0)
                && monitors[m] == Reg(r.interval, r.paused, if goes then Some(now) else r.last, r.gen, r.addedAt)
    {
      published := [];
      var todo := monitors.Keys;
      ghost var before := monitors;
      assert Dispatched(before, now, ok) - todo == {};
      while todo != {}
        invariant Pass(before, todo, now, ok, monitors, multiset(published))
        decreases todo
      {
        var m :| m in todo;
        PassOne(before, todo, now, ok, monitors, multiset(published), m);
        todo := todo - {m};
        var sm := monitors[m];
        if !sm.paused && (sm.last.None? || now - sm.last.value >= sm.interval) && m in ok {
          published := published + [m];
          monitors := monitors[m := sm.(last := Some(now))];
        }
      }
      PassDone(before, now, ok, monitors, multiset(published));
      assert forall m :: m in published ==> m in multiset(published);
    }

    method TryAcquireLeadership(reply: bool)
      modifies this`isLeader, mutex
      requires !isLeader
      ensures mutex.now == old(mutex.now)
      ensures var free := old(mutex.lease).Free? || old(mutex.lease).until <= mutex.now;
              && (isLeader <==> free && reply)
              && mutex.lease == (if free then Held(id, old(mutex.terms) + 1, mutex.now + mutex.expiry)
                                 else old(mutex.lease))
              && mutex.terms == if free then old(mutex.terms) + 1 else old(mutex.terms)
    {
      var got := mutex.Lock(id);
      if got && reply { isLeader := true; }
    }

    /** One tick of `Run`. In any fleet that this instance and the lock are part of, it is the run
        `TickActions`, at the end of which they are again what the objects hold; and what it
        publishes is what the fleet's log records. */
    method Tick(io: TickIo) returns (published: seq<MonitorId>)
      modifies this, mutex
      ensures var fenced := old(isLeader) && io.extend && HeldBy(old(mutex.lease), id, old(mutex.now));
              var acts := TickActions(id, old(isLeader), fenced, io);
              (forall t :: Shows(t, id, old(mutex.now), old(mutex.lease), old(mutex.terms),
                                 if old(isLeader) then Leading else Following, old(monitors)) ==>
                 var t' := Exec(mutex.expiry, t, acts);
                 Shows(t', id, mutex.now, mutex.lease, mutex.terms, if isLeader then Leading else Following, monitors)
                 && t.log <= t'.log
                 && (fenced ==> |t'.log| == |t.log| + 1 && multiset(published) == multiset(t'.log[|t.log|].sent.Keys))
                 && (!fenced ==> t'.log == t.log && published == []))
      ensures !old(isLeader) ==>
                && monitors == old(monitors) && published == []
                && (isLeader <==> (old(mutex.lease).Free? || old(mutex.lease).until <= old(mutex.now)) && io.lock)
      ensures old(isLeader) ==>
                var l := old(mutex.lease);
                var holds := l.Held? && l.owner == id && old(mutex.now) < l.until;
                && (isLeader <==> holds && io.extend)
                && (holds ==> mutex.lease == Held(id, l.term, old(mutex.now) + mutex.expiry))
                && (!holds ==> mutex.lease == l)
                && (!isLeader ==> monitors == old(monitors) && published == [])
                && (isLeader ==> mutex.now == old(mutex.now) + io.stall && monitors.Keys == old(monitors).Keys)
      ensures forall m :: m in published ==> m in monitors
      ensures old(isLeader) && isLeader ==>
                forall m :: m in monitors ==>
                  var r := old(monitors)[m];
                  var goes := && !r.paused && m in io.sent
                              && (r.last.None? || mutex.now - r.last.value >= r.interval);
                  && multiset(published)[m] == (if goes then 1 else 0)
                  && monitors[m] ==
                     Reg(r.interval, r.paused, if goes then Some(mutex.now) else r.last, r.gen, r.addedAt)
    {
      published := [];
      ghost var now0, lease0, terms0 := mutex.now, mutex.lease, mutex.terms;
      ghost var leader0, regs0 := isLeader, monitors;
      if !isLeader {
        TryAcquireLeadership(io.lock);
        forall t | Shows(t, id, now0, lease0, terms0, Following, regs0)
          ensures var t' := Exec(mutex.expiry, t, TickActions(id, false, false, io));
                  Shows(t', id, mutex.now, mutex.lease, mutex.terms, if isLeader then Leading else Following, monitors)
                  && t'.log == t.log
        {
          FollowingTick(mutex.expiry, t, id, io, now0, lease0, terms0, regs0);
        }
        return;
      }
      var ok := mutex.Extend(id);
      if !ok || !io.extend {
        isLeader := false;
        forall t | Shows(t, id, now0, lease0, terms0, Leading, regs0)
          ensures var t' := Exec(mutex.expiry, t, TickActions(id, true, false, io));
                  Shows(t', id, mutex.now, mutex.lease, mutex.terms, Following, monitors) && t'.log == t.log
        {
          LosingTick(mutex.expiry, t, id, io, now0, lease0, terms0, regs0);
        }
        return;
      }
      mutex.Pass(io.stall);
      published := DispatchDueChecks(mutex.now, io.sent);
      forall t | Shows(t, id, now0, lease0, terms0, Leading, regs0)
        ensures var t' := Exec(mutex.expiry, t, TickActions(id, true, true, io));
                Shows(t', id, mutex.now, mutex.lease, mutex.terms, Leading, monitors)
                && |t'.log| == |t.log| + 1 && t.log <= t'.log
                && multiset(published) == multiset(t'.log[|t.log|].sent.Keys)
      {
        DispatchingTick(mutex.expiry, t, id, io, now0, lease0, terms0, regs0);
      }
    }

    /** Releases the lock if this instance leads; a dispatch under way is not interrupted. */
    method Stop()
      modifies this`isLeader, mutex
      ensures !isLeader && mutex.now == old(mutex.now) && mutex.terms == old(mutex.terms)
      ensures var l := old(mutex.lease);
              mutex.lease == if old(isLeader) && l.Held? && l.owner == id && mutex.now < l.until then Free else l
      ensures forall t ::
                Shows(t, id, mutex.now, old(mutex.lease), mutex.terms, if old(isLeader) then Leading else Following,
                      monitors) ==>
                  Shows(Step(mutex.expiry, t, Action.Stop(id)), id, mutex.now, mutex.lease, mutex.terms, Following,
                        monitors)
    {
      if isLeader {
        mutex.Unlock(id);
        isLeader := false;
      }
    }
  }
}
