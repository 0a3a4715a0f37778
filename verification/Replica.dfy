/** The scheduler's registry as a replica of the monitors table: the mutations of the monitoring
    service, the events they publish, and what a scheduler fed with those events dispatches. */
module Replica {
  import opened Wrappers
  import Text

  type Id = nat
  type UserId = nat

  // What the checker needs besides the schedule; opaque to everything here.
  datatype Config = Config(kind: string, body: string)

  datatype Monitor = Monitor(
    owner: UserId, name: string, config: Config, interval: int, threshold: int, paused: bool, public: bool)

  type Db = map<Id, Monitor>

  datatype Verb = Created | Updated | Deleted | Paused | Resumed

  /** The published event: a delete or a pause carries nothing but the id. */
  datatype Event = Event(verb: Verb, id: Id, name: string, config: Config, interval: int, threshold: int, paused: bool)

  function ToEvent(verb: Verb, id: Id, m: Monitor): Event {
    if verb.Deleted? || verb.Paused? then Event(verb, id, "", Config("", ""), 0, 0, false)
    else Event(verb, id, m.name, m.config, m.interval, m.threshold, m.paused)
  }

  // ---- The mutations ----

  datatype Patch = Patch(name: Option<string>, config: Option<string>, interval: Option<int>,
                         threshold: Option<int>, paused: Option<bool>, public: Option<bool>)

  function Max(a: int, b: int): int { if a > b then a else b }

  function Patched(m: Monitor, p: Patch, minInterval: int): Monitor {
    Monitor(m.owner,
            if p.name.Some? then Text.TrimSpace(p.name.value) else m.name,
            if p.config.Some? then Config(m.config.kind, p.config.value) else m.config,
            if p.interval.Some? then Max(p.interval.value, minInterval) else m.interval,
            if p.threshold.Some? then p.threshold.value else m.threshold,
            if p.paused.Some? then p.paused.value else m.paused,
            if p.public.Some? then p.public.value else m.public)
  }

  predicate ValidInput(name: string, interval: int, threshold: int) {
    var n := Text.TrimSpace(name);
    n != "" && Text.Utf8Length(n) <= 255 && 30 <= interval <= 86400 && 1 <= threshold <= 100
  }

  /** What a plan allows, and what a request to create a monitor carries: 0 asks for the default. */
  datatype Plan = Plan(limit: int, minInterval: int)

  datatype Input = Input(name: string, config: Config, interval: int, threshold: int, public: bool)

  function OwnedBy(db: Db, user: UserId): (ids: set<Id>)
    ensures forall id :: id in ids <==> id in db && db[id].owner == user
  {
    set id | id in db && db[id].owner == user
  }

  function NewMonitor(user: UserId, plan: Plan, input: Input): Monitor {
    Monitor(user, Text.TrimSpace(input.name), input.config,
            if input.interval == 0 then plan.minInterval else input.interval,
            if input.threshold == 0 then 3 else input.threshold, false, input.public)
  }

  predicate MayCreate(db: Db, user: UserId, plan: Plan, input: Input) {
    var m := NewMonitor(user, plan, input);
    && |OwnedBy(db, user)| < plan.limit && m.interval >= plan.minInterval
    && ValidInput(input.name, m.interval, m.threshold)
  }

  datatype Op =
    | Create(id: Id, user: UserId, plan: Plan, input: Input)
    | Update(id: Id, user: UserId, minInterval: int, patch: Patch)
    | Delete(id: Id, user: UserId)
    | TogglePause(id: Id, user: UserId)

  // The table after an accepted mutation, and the event it publishes; None when it is refused.
  function Perform(db: Db, op: Op): Option<(Db, Event)> {
    match op
    case Create(id, user, plan, input) =>
      if id !in db && MayCreate(db, user, plan, input) then
        var m := NewMonitor(user, plan, input);
        Some((db[id := m], ToEvent(Created, id, m)))
      else None
    case Update(id, user, minInterval, patch) =>
      if id in db && db[id].owner == user then
        var m' := Patched(db[id], patch, minInterval);
        if ValidInput(m'.name, m'.interval, m'.threshold) then Some((db[id := m'], ToEvent(Updated, id, m'))) else None
      else None
    case Delete(id, user) =>
      if id in db && db[id].owner == user then Some((db - {id}, ToEvent(Deleted, id, db[id]))) else None
    case TogglePause(id, user) =>
      if id in db && db[id].owner == user then
        var m' := db[id].(paused := !db[id].paused);
        Some((db[id := m'], ToEvent(if m'.paused then Paused else Resumed, id, m')))
      else None
  }

  function DbAfter(db: Db, ops: seq<Op>): Db {
    if ops == [] then db
    else
      var before := DbAfter(db, ops[..|ops| - 1]);
      match Perform(before, ops[|ops| - 1]) case Some((db', _)) => db' case None => before
  }

  function Published(db: Db, ops: seq<Op>): seq<Event> {
    if ops == [] then []
    else
      var n := |ops| - 1;
      Published(db, ops[..n]) +
      (match Perform(DbAfter(db, ops[..n]), ops[n]) case Some((_, ev)) => [ev] case None => [])
  }

  // ---- The replica ----

  /** A registered monitor, as far as dispatching goes. */
  datatype Entry = Entry(name: string, config: Config, interval: int, threshold: int, paused: bool)

  type Registry = map<Id, Entry>

  function Apply(reg: Registry, ev: Event): Registry {
    if ev.verb.Deleted? || ev.verb.Paused? then reg - {ev.id}
    else reg[ev.id := Entry(ev.name, ev.config, ev.interval, ev.threshold, ev.paused)]
  }

  function ApplyAll(reg: Registry, evs: seq<Event>): Registry {
    if evs == [] then reg else Apply(ApplyAll(reg, evs[..|evs| - 1]), evs[|evs| - 1])
  }

  function ToEntry(m: Monitor): Entry { Entry(m.name, m.config, m.interval, m.threshold, m.paused) }

  // ListActive, loaded at start-up: the rows that are not paused.
  function LoadActive(db: Db): Registry { map id | id in db && !db[id].paused :: ToEntry(db[id]) }

  // What gets dispatched for `id`: by the scheduler, and according to the table.
  function Dispatchable(reg: Registry, id: Id): Option<Entry> {
    if id in reg && !reg[id].paused then Some(reg[id]) else None
  }

  function Wanted(db: Db, id: Id): Option<Entry> {
    if id in db && !db[id].paused then Some(ToEntry(db[id])) else None
  }

  function LastAbout(evs: seq<Event>, id: Id): Option<Event> {
    if evs == [] then None
    else if evs[|evs| - 1].id == id then Some(evs[|evs| - 1])
    else LastAbout(evs[..|evs| - 1], id)
  }

  // What one event alone says should be dispatched.
  function Says(ev: Event): Option<Entry> { Dispatchable(Apply(map[], ev), ev.id) }

  /** Events are snapshots: only the last one about a monitor matters. */
  lemma {:induction false} LastEventDecides(reg: Registry, evs: seq<Event>, id: Id)
    ensures Dispatchable(ApplyAll(reg, evs), id) ==
            match LastAbout(evs, id) case Some(ev) => Says(ev) case None => Dispatchable(reg, id)
  {
    if evs != [] { LastEventDecides(reg, evs[..|evs| - 1], id); }
  }

  lemma LastAboutSnoc(evs: seq<Event>, ev: Event, id: Id)
    ensures LastAbout(evs + [ev], id) == if ev.id == id then Some(ev) else LastAbout(evs, id)
  {
    assert (evs + [ev])[..|evs|] == evs;
  }

  lemma {:induction false} TableFollowsEvents(db: Db, ops: seq<Op>, id: Id)
    ensures Wanted(DbAfter(db, ops), id) ==
            match LastAbout(Published(db, ops), id) case Some(ev) => Says(ev) case None => Wanted(db, id)
  {
    if ops != [] {
      var n := |ops| - 1;
      TableFollowsEvents(db, ops[..n], id);
      var before, out := DbAfter(db, ops[..n]), Published(db, ops[..n]);
      if Perform(before, ops[n]).None? {
        assert Published(db, ops) == out;
      } else {
        var (db', ev) := Perform(before, ops[n]).value;
        OneEventTellsTheRow(before, ops[n]);
        LastAboutSnoc(out, ev, id);
        assert DbAfter(db, ops) == db' && Published(db, ops) == out + [ev];
      }
    }
  }

  lemma OneEventTellsTheRow(db: Db, op: Op)
    requires Perform(db, op).Some?
    ensures var (db', ev) := Perform(db, op).value;
            Wanted(db', ev.id) == Says(ev) && forall id :: id != ev.id ==> Wanted(db', id) == Wanted(db, id)
  {
  }

  /** A scheduler that loaded the table at start-up and has since been delivered `evs` agrees with
      the table about a monitor exactly when the last event it got about it says what the last one
      published does. */
  lemma {:induction false} AgreesExactly(db: Db, ops: seq<Op>, evs: seq<Event>, id: Id)
    ensures Dispatchable(ApplyAll(LoadActive(db), evs), id) == Wanted(DbAfter(db, ops), id)
            <==> Heard(db, evs, id) == Heard(db, Published(db, ops), id)
  {
    LastEventDecides(LoadActive(db), evs, id);
    TableFollowsEvents(db, ops, id);
  }

  function Heard(db: Db, evs: seq<Event>, id: Id): Option<Entry> {
    match LastAbout(evs, id) case Some(ev) => Says(ev) case None => Wanted(db, id)
  }

  /** `evs` is `orig` with some events delivered several times in a row. */
  ghost predicate Stutters(evs: seq<Event>, orig: seq<Event>)
    decreases |evs|
  {
    if evs == [] then orig == []
    else
      var n := |evs| - 1;
      orig != [] && evs[n] == orig[|orig| - 1] &&
      (Stutters(evs[..n], orig) || Stutters(evs[..n], orig[..|orig| - 1]))
  }

  lemma {:induction false} StutteringKeepsLast(evs: seq<Event>, orig: seq<Event>, id: Id)
    requires Stutters(evs, orig)
    ensures LastAbout(evs, id) == LastAbout(orig, id)
    decreases |evs|
  {
    if evs != [] && evs[|evs| - 1].id != id {
      var n := |evs| - 1;
      if Stutters(evs[..n], orig) {
        StutteringKeepsLast(evs[..n], orig, id);
      } else {
        StutteringKeepsLast(evs[..n], orig[..|orig| - 1], id);
      }
    }
  }

  /** Replica agreement: after any history of mutations, with every published event delivered in
      order and possibly repeated, the scheduler dispatches exactly the monitors that the table
      holds and does not pause, as the table describes them. */
  lemma {:induction false} ReplicaAgrees(db: Db, ops: seq<Op>, evs: seq<Event>, id: Id)
    requires Stutters(evs, Published(db, ops))
    ensures Dispatchable(ApplyAll(LoadActive(db), evs), id) == Wanted(DbAfter(db, ops), id)
  {
    StutteringKeepsLast(evs, Published(db, ops), id);
    AgreesExactly(db, ops, evs, id);
  }

  // ---- Where the agreement is lost ----

  /** An update that read its row before a concurrent delete writes nothing but still publishes. The
      scheduler then dispatches a monitor that no longer exists, exactly when it is not paused. */
  lemma UpdateRacingDeleteRevives(db: Db, id: Id, user: UserId, minInterval: int, patch: Patch)
    requires Perform(db, Update(id, user, minInterval, patch)).Some?
    ensures var (_, stale) := Perform(db, Update(id, user, minInterval, patch)).value;
            var (db', del) := Perform(db, Delete(id, user)).value;
            var reg := ApplyAll(LoadActive(db), [del, stale]);
            Wanted(db', id) == None &&
            (Dispatchable(reg, id) != None <==> !Patched(db[id], patch, minInterval).paused)
  {
    var (_, stale) := Perform(db, Update(id, user, minInterval, patch)).value;
    var (_, del) := Perform(db, Delete(id, user)).value;
    LastEventDecides(LoadActive(db), [del, stale], id);
  }

  /** Instances that share one durable consumer are delivered each event once between them. Whatever
      one of them is not given about a monitor last, it gets wrong unless it makes no difference. */
  lemma {:induction false} UndeliveredLastEvent(db: Db, ops: seq<Op>, op: Op)
    requires Perform(DbAfter(db, ops), op).Some?
    ensures var (db', ev) := Perform(DbAfter(db, ops), op).value;
            Dispatchable(ApplyAll(LoadActive(db), Published(db, ops)), ev.id) == Wanted(db', ev.id)
            <==> Wanted(DbAfter(db, ops), ev.id) == Wanted(db', ev.id)
  {
    var (_, ev) := Perform(DbAfter(db, ops), op).value;
    AgreesExactly(db, ops, Published(db, ops), ev.id);
  }

  // ---- The service and the event handler as objects ----

  /** What the caller is told: done, done although the event could not be published, or an error that
      changed nothing. */
  datatype Outcome = Applied | AppliedUnpublished | Refused

  /** Each field that the request carries is the requested value, the name trimmed and the interval not below
      the plan's; every other field, the owner and the kind of check are as they were. */
  ghost predicate AsRequested(before: Monitor, after: Monitor, patch: Patch, minInterval: int) {
    && after.owner == before.owner && after.config.kind == before.config.kind
    && after.name == (match patch.name case Some(name) => Text.TrimSpace(name) case None => before.name)
    && after.config.body == (match patch.config case Some(body) => body case None => before.config.body)
    && after.interval == (match patch.interval
                          case Some(seconds) => if seconds >= minInterval then seconds else minInterval
                          case None => before.interval)
    && after.threshold == (match patch.threshold case Some(failures) => failures case None => before.threshold)
    && after.paused == (match patch.paused case Some(flag) => flag case None => before.paused)
    && after.public == (match patch.public case Some(flag) => flag case None => before.public)
  }

  class MonitoringService {
    var rows: Db
    var outbox: seq<Event>

    constructor (rows: Db)
      ensures this.rows == rows && outbox == []
    {
      this.rows, outbox := rows, [];
    }

    // The table and the stream after `op`, when the publish succeeds or not.
    ghost predicate Did(db: Db, out: seq<Event>, op: Op, published: bool, o: Outcome)
      reads this
    {
      match Perform(db, op)
      case None => rows == db && outbox == out && o == Refused
      case Some((db', ev)) =>
        rows == db' && if published then outbox == out + [ev] && o == Applied
                       else outbox == out && o == AppliedUnpublished
    }

    method Publish(ev: Event, ok: bool) returns (o: Outcome)
      modifies this`outbox
      ensures outbox == if ok then old(outbox) + [ev] else old(outbox)
      ensures o == if ok then Applied else AppliedUnpublished
    {
      if ok {
        outbox := outbox + [ev];
        return Applied;
      }
      return AppliedUnpublished;
    }

    // An error of the checker or of the repository, before anything is written.
    ghost predicate Untouched(db: Db, out: seq<Event>, o: Outcome)
      reads this
    {
      rows == db && outbox == out && o == Refused
    }

    /** `id` is the key the database picks for a new row; `configOk` what the checker says of the
        configuration; `writeOk` and `bound` whether the row can be inserted and all channels be bound. */
    method CreateMonitor(id: Id, user: UserId, plan: Plan, input: Input, channels: nat, configOk: bool, writeOk: bool,
                         bound: bool, published: bool)
      returns (o: Outcome)
      requires id !in rows
      modifies this
      ensures if configOk && writeOk && (channels == 0 || bound) then
                Did(old(rows), old(outbox), Create(id, user, plan, input), published, o)
              else Untouched(old(rows), old(outbox), o)
      ensures forall i :: i in rows && i != id ==> i in old(rows) && rows[i] == old(rows)[i]
      ensures forall i :: i in old(rows) ==> i in rows
      ensures !o.Refused? <==>
              var interval := if input.interval == 0 then plan.minInterval else input.interval;
              var threshold := if input.threshold == 0 then 3 else input.threshold;
              var name := Text.TrimSpace(input.name);
              && |OwnedBy(old(rows), user)| < plan.limit && plan.minInterval <= interval
              && name != "" && Text.Utf8Length(name) <= 255 && 30 <= interval <= 86400 && 1 <= threshold <= 100
              && configOk && writeOk && (channels == 0 || bound)
      ensures o.Refused? ==> id !in rows && outbox == old(outbox)
      ensures !o.Refused? ==>
                && id in rows && rows[id].owner == user && !rows[id].paused && rows[id].config == input.config
                && rows[id].public == input.public && rows[id].name == Text.TrimSpace(input.name)
                && rows[id].interval == (if input.interval == 0 then plan.minInterval else input.interval)
                && rows[id].threshold == (if input.threshold == 0 then 3 else input.threshold)
                && o == (if published then Applied else AppliedUnpublished)
                && outbox == old(outbox) +
                             if !published then []
                             else var m := rows[id];
                                  [Event(Created, id, m.name, m.config, m.interval, m.threshold, false)]
    {
      if |OwnedBy(rows, user)| >= plan.limit { return Refused; }
      var interval := input.interval;
      if interval == 0 { interval := plan.minInterval; }
      if interval < plan.minInterval { return Refused; }
      var alertAfter := input.threshold;
      if alertAfter == 0 { alertAfter := 3; }
      if !ValidInput(input.name, interval, alertAfter) { return Refused; }
      if !configOk { return Refused; }
      var mon := Monitor(user, Text.TrimSpace(input.name), input.config, interval, alertAfter, false, input.public);
      var before := rows;
      if !writeOk { return Refused; }
      rows := rows[id := mon];
      if channels > 0 && !bound {
        rows := before;  // the transaction rolls back
        return Refused;
      }
      o := Publish(ToEvent(Created, id, mon), published);
    }

    /** `configOk` is what the checker says of a configuration in the request. */
    method UpdateMonitor(id: Id, user: UserId, minInterval: int, patch: Patch, configOk: bool, writeOk: bool,
                         published: bool)
      returns (o: Outcome)
      modifies this
      ensures if (patch.config.None? || configOk) && writeOk then
                Did(old(rows), old(outbox), Update(id, user, minInterval, patch), published, o)
              else Untouched(old(rows), old(outbox), o)
      ensures rows.Keys == old(rows).Keys && forall i :: i in rows && i != id ==> rows[i] == old(rows)[i]
      ensures o.Refused? ==> rows == old(rows) && outbox == old(outbox)
      ensures !o.Refused? ==>
                && id in rows && AsRequested(old(rows)[id], rows[id], patch, minInterval)
                && o == (if published then Applied else AppliedUnpublished)
                && outbox == old(outbox) +
                             if !published then []
                             else var m := rows[id];
                                  [Event(Updated, id, m.name, m.config, m.interval, m.threshold, m.paused)]
      ensures !o.Refused? <==>
              && id in old(rows) && old(rows)[id].owner == user && (patch.config.None? || configOk) && writeOk
              && var m := old(rows)[id];
                 var name := Text.TrimSpace(if patch.name.Some? then Text.TrimSpace(patch.name.value) else m.name);
                 var threshold := if patch.threshold.Some? then patch.threshold.value else m.threshold;
                 && name != "" && Text.Utf8Length(name) <= 255 && 1 <= threshold <= 100
                 && (match patch.interval
                     case Some(seconds) =>
                       (30 <= seconds || 30 <= minInterval) && seconds <= 86400 && minInterval <= 86400
                     case None => 30 <= m.interval <= 86400)
    {
      if id !in rows || rows[id].owner != user { return Refused; }
      if patch.config.Some? && !configOk { return Refused; }
      var mon := PatchFields(rows[id], patch, minInterval);
      if !ValidInput(mon.name, mon.interval, mon.threshold) { return Refused; }
      if !writeOk { return Refused; }
      rows := rows[id := mon];
      o := Publish(ToEvent(Updated, id, mon), published);
    }

    // The fields are assigned one by one, each only when the request carries it.
    method PatchFields(m: Monitor, patch: Patch, minInterval: int) returns (mon: Monitor)
      ensures mon == Patched(m, patch, minInterval)
      ensures AsRequested(m, mon, patch, minInterval)
    {
      mon := m;
      if patch.name.Some? { mon := mon.(name := Text.TrimSpace(patch.name.value)); }
      if patch.config.Some? { mon := mon.(config := Config(mon.config.kind, patch.config.value)); }
      if patch.interval.Some? { mon := mon.(interval := Max(patch.interval.value, minInterval)); }
      if patch.threshold.Some? { mon := mon.(threshold := patch.threshold.value); }
      if patch.paused.Some? { mon := mon.(paused := patch.paused.value); }
      if patch.public.Some? { mon := mon.(public := patch.public.value); }
    }

    /** The caller is told of success also when the event is not published. */
    method DeleteMonitor(id: Id, user: UserId, writeOk: bool, published: bool) returns (o: Outcome)
      modifies this
      ensures var done := Perform(old(rows), Delete(id, user));
              if !writeOk || done.None? then Untouched(old(rows), old(outbox), o)
              else
                var (db', ev) := done.value;
                rows == db' && outbox == old(outbox) + (if published then [ev] else []) && o == Applied
      ensures o == if id in old(rows) && old(rows)[id].owner == user && writeOk then Applied else Refused
      ensures o.Refused? ==> rows == old(rows) && outbox == old(outbox)
      ensures o.Applied? ==> id !in rows
      ensures forall i :: i != id ==> (i in rows <==> i in old(rows))
      ensures forall i :: i in rows ==> i in old(rows) && rows[i] == old(rows)[i]
      ensures o.Applied? && published ==>
                |outbox| == |old(outbox)| + 1 && old(outbox) <= outbox &&
                outbox[|old(outbox)|].verb.Deleted? && outbox[|old(outbox)|].id == id
    {
      if id !in rows || rows[id].owner != user { return Refused; }
      if !writeOk { return Refused; }
      var mon := rows[id];
      rows := rows - {id};
      var _ := Publish(ToEvent(Deleted, id, mon), published);
      return Applied;
    }

    method TogglePause(id: Id, user: UserId, writeOk: bool, published: bool) returns (o: Outcome)
      modifies this
      ensures if writeOk then Did(old(rows), old(outbox), Op.TogglePause(id, user), published, o)
              else Untouched(old(rows), old(outbox), o)
      ensures rows.Keys == old(rows).Keys && forall i :: i in rows && i != id ==> rows[i] == old(rows)[i]
      ensures o.Refused? <==> !(id in old(rows) && old(rows)[id].owner == user && writeOk)
      ensures o.Refused? ==> rows == old(rows) && outbox == old(outbox)
      ensures !o.Refused? ==>
                var m := old(rows)[id];
                && rows[id] == Monitor(m.owner, m.name, m.config, m.interval, m.threshold, !m.paused, m.public)
                && o == (if published then Applied else AppliedUnpublished)
                && outbox == old(outbox) +
                             if !published then []
                             else if !m.paused then [Event(Paused, id, "", Config("", ""), 0, 0, false)]
                             else [Event(Resumed, id, m.name, m.config, m.interval, m.threshold, false)]
    {
      if id !in rows || rows[id].owner != user { return Refused; }
      if !writeOk { return Refused; }
      var mon := rows[id].(paused := !rows[id].paused);
      rows := rows[id := mon];
      var verb := Resumed;
      if mon.paused { verb := Paused; }
      o := Publish(ToEvent(verb, id, mon), published);
    }
  }

  class SchedulerReplica {
    var registry: Registry

    constructor (db: Db)
      ensures registry == LoadActive(db)
      ensures forall id :: id in registry <==> id in db && !db[id].paused
      ensures forall id :: id in registry ==>
                registry[id] == Entry(db[id].name, db[id].config, db[id].interval, db[id].threshold, false)
    {
      registry := LoadActive(db);
    }

    method OnMonitorChanged(ev: Event)
      modifies this
      ensures registry == Apply(old(registry), ev)
      ensures forall id :: id != ev.id ==>
                (id in registry <==> id in old(registry)) && (id in registry ==> registry[id] == old(registry)[id])
      ensures ev.id in registry <==> ev.verb.Created? || ev.verb.Updated? || ev.verb.Resumed?
      ensures ev.id in registry ==>
                registry[ev.id] == Entry(ev.name, ev.config, ev.interval, ev.threshold, ev.paused)
    {
      match ev.verb {
        case Created | Updated | Resumed =>
          registry := registry[ev.id := Entry(ev.name, ev.config, ev.interval, ev.threshold, ev.paused)];
        case Deleted | Paused =>
          registry := registry - {ev.id};
      }
    }
  }
}
