/** Leader election and dispatch, fleet-wide: any number of scheduler instances sharing one
    expiring lock, each with its own registry of monitors.

    Time is an integer clock read by all. The lock has the semantics of a redsync mutex: it is
    held by one owner until its expiry, only that owner can extend it, and only before it expires. */
module Fleet {
  import opened Wrappers

  type InstanceId = nat
  type MonitorId = nat

  /** `last` is the stamp of the latest successful publish, None for the zero time. `gen` numbers
      the `Add` that made the entry and `addedAt` is when that was; no program reads either. */
  datatype Reg = Reg(interval: int, paused: bool, last: Option<int>, gen: nat, addedAt: int)

  type Registry = map<MonitorId, Reg>

  predicate Due(r: Reg, now: int) {
    !r.paused && (r.last.None? || now - r.last.value >= r.interval)
  }

  // One registration after a dispatch at `now`; `ok` is whether its publish, if due, goes through.
  function Stamped(r: Reg, now: int, ok: bool): Reg {
    if Due(r, now) && ok then r.(last := Some(now)) else r
  }

  function Dispatched(regs: Registry, now: int, sent: set<MonitorId>): set<MonitorId> {
    set m | m in regs && Due(regs[m], now) && m in sent
  }

  // The registry after a dispatch at `now`, when exactly the publishes in `sent` go through.
  function AfterDispatch(regs: Registry, now: int, sent: set<MonitorId>): Registry {
    map m | m in regs :: Stamped(regs[m], now, m in sent)
  }

  // ---- The lock ----

  /** `term` counts the acquisitions, so that two tenures of one owner can be told apart. */
  datatype Lease = Free | Held(owner: InstanceId, term: nat, until: int)

  predicate Available(l: Lease, now: int) { l.Free? || l.until <= now }

  predicate HeldBy(l: Lease, i: InstanceId, now: int) { l.Held? && l.owner == i && now < l.until }

  // ---- The instances ----

  /** Where the `Run` loop stands: following, leading, or past the fence of this tick with the
      dispatch still to come; `flag` is what `isLeader` says in the meantime. */
  datatype Phase = Following | Leading | Fenced(flag: bool)

  predicate IsLeader(p: Phase) { p.Leading? || (p.Fenced? && p.flag) }

  datatype Instance = Instance(phase: Phase, regs: Registry)

  /** One dispatch: its stamp, who made it and what went out. `term` is Some while the dispatcher
      still holds the lock at the stamp, None when it dispatches late. */
  datatype Dispatch = Dispatch(inst: InstanceId, at: int, term: Option<nat>, sent: Registry)

  /** A successful Extend, from its moment to the expiry it bought, cut short by an Unlock. */
  datatype Grant = Grant(inst: InstanceId, from: int, until: int)

  datatype State = State(
    now: int, lease: Lease, terms: nat, gens: nat,
    fleet: map<InstanceId, Instance>,
    log: seq<Dispatch>, grants: seq<Grant>)

  /** `reply` is false when the call took effect but its answer was an error. */
  datatype Action =
    | Wait(d: nat)
    | Lock(i: InstanceId, reply: bool)
    | Extend(i: InstanceId, reply: bool)
    | Send(i: InstanceId, ok: set<MonitorId>)
    | Stop(i: InstanceId)
    | Add(i: InstanceId, m: MonitorId, interval: int, paused: bool)
    | Remove(i: InstanceId, m: MonitorId)

  function Put(s: State, i: InstanceId, x: Instance): State { s.(fleet := s.fleet[i := x]) }

  function CutGrants(gs: seq<Grant>, i: InstanceId, now: int): seq<Grant> {
    seq(|gs|, k requires 0 <= k < |gs| => if gs[k].inst == i && gs[k].until > now then gs[k].(until := now) else gs[k])
  }

  // A step that is not possible in `s` leaves `s` unchanged. `expiry` is the lock's lifetime.
  function Step(expiry: int, s: State, a: Action): State {
    match a
    case Wait(d) => s.(now := s.now + d)
    case Lock(i, reply) =>
      if i in s.fleet && s.fleet[i].phase.Following? && Available(s.lease, s.now) then
        Put(s.(lease := Held(i, s.terms + 1, s.now + expiry), terms := s.terms + 1), i,
            s.fleet[i].(phase := if reply then Leading else Following))
      else s
    case Extend(i, reply) =>
      if i in s.fleet && s.fleet[i].phase.Leading? then
        if HeldBy(s.lease, i, s.now) then
          Put(s.(lease := s.lease.(until := s.now + expiry), grants := s.grants + [Grant(i, s.now, s.now + expiry)]), i,
              s.fleet[i].(phase := if reply then Fenced(true) else Following))
        else Put(s, i, s.fleet[i].(phase := Following))
      else s
    case Send(i, ok) =>
      if i in s.fleet && s.fleet[i].phase.Fenced? then
        var regs := s.fleet[i].regs;
        var regs' := AfterDispatch(regs, s.now, ok);
        var sent := map m | m in Dispatched(regs, s.now, ok) :: regs'[m];
        var term := if HeldBy(s.lease, i, s.now) then Some(s.lease.term) else None;
        Put(s.(log := s.log + [Dispatch(i, s.now, term, sent)]), i,
            Instance(if s.fleet[i].phase.flag then Leading else Following, regs'))
      else s
    case Stop(i) =>
      if i in s.fleet && IsLeader(s.fleet[i].phase) then
        // A dispatch under way is not interrupted: only the flag and the lock are given up.
        var x := s.fleet[i].(phase := if s.fleet[i].phase.Fenced? then Fenced(false) else Following);
        if HeldBy(s.lease, i, s.now) then
          Put(s.(lease := Free, grants := CutGrants(s.grants, i, s.now)), i, x)
        else Put(s, i, x)
      else s
    case Add(i, m, interval, paused) =>
      if i in s.fleet then
        Put(s.(gens := s.gens + 1), i,
            s.fleet[i].(regs := s.fleet[i].regs[m := Reg(interval, paused, None, s.gens, s.now)]))
      else s
    case Remove(i, m) =>
      if i in s.fleet then Put(s, i, s.fleet[i].(regs := s.fleet[i].regs - {m})) else s
  }

  function Exec(expiry: int, s: State, acts: seq<Action>): State {
    if acts == [] then s
    else Step(expiry, Exec(expiry, s, acts[..|acts| - 1]), acts[|acts| - 1])
  }

  /** A fleet before its first tick; registries may already be loaded. */
  ghost predicate Initial(s: State) {
    && s.lease == Free && s.log == [] && s.grants == []
    && (forall i :: i in s.fleet ==> s.fleet[i].phase.Following?)
    && (forall i, m :: i in s.fleet && m in s.fleet[i].regs ==>
          var r := s.fleet[i].regs[m]; r.last == None && r.gen < s.gens && r.addedAt <= s.now)
    && (forall i, m, i', m' ::
          Registered(s, i, m) && Registered(s, i', m') && s.fleet[i].regs[m].gen == s.fleet[i'].regs[m'].gen ==>
          i == i' && m == m')
  }

  predicate Registered(s: State, i: InstanceId, m: MonitorId) { i in s.fleet && m in s.fleet[i].regs }
}
