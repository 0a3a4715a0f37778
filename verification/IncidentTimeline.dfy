/** Manual incidents and the timeline of updates that users write about them. */
module IncidentTimeline {
  import opened Wrappers
  import Text

  type UserId = nat
  type MonitorId = nat
  type IncidentId = nat
  type Time = int

  /** The four states, and every other text a request may send. */
  datatype IncidentState = Investigating | Identified | Monitoring | Resolved | Unknown(name: string)

  predicate Valid(s: IncidentState) { !s.Unknown? }

  // A state missing from the order counts as 0, as a map lookup gives.
  function Order(s: IncidentState): nat {
    match s
    case Identified => 1
    case Monitoring => 2
    case Resolved => 3
    case _ => 0
  }

  predicate CanTransitionTo(s: IncidentState, next: IncidentState) {
    if !Valid(next) then false
    else if s == next then true
    else if Order(next) > Order(s) then true
    else s == Monitoring && next == Identified
  }

  // Three levels: identified and monitoring can be left for each other, so they are one level.
  function Level(s: IncidentState): nat {
    match s
    case Investigating => 0
    case Identified | Monitoring => 1
    case Resolved => 2
    case Unknown(_) => 0
  }

  /** Between valid states the moves allowed are exactly those that do not go down a level. So they
      chain, every two states are comparable, and resolved is never left. */
  lemma MovesAreLevels(s: IncidentState, next: IncidentState)
    requires Valid(s)
    ensures CanTransitionTo(s, next) <==> Valid(next) && Level(s) <= Level(next)
    ensures CanTransitionTo(s, next) <==>
            match s
            case Investigating => !next.Unknown?
            case Identified | Monitoring => next.Identified? || next.Monitoring? || next.Resolved?
            case Resolved => next.Resolved?
            case Unknown(_) => next.Identified? || next.Monitoring? || next.Resolved?
  {
  }

  lemma MovesChain(s: IncidentState, t: IncidentState, u: IncidentState)
    requires Valid(s) && CanTransitionTo(s, t) && CanTransitionTo(t, u)
    ensures CanTransitionTo(s, u) && (s == Resolved ==> u == Resolved)
  {
    MovesAreLevels(s, t);
    MovesAreLevels(t, u);
    MovesAreLevels(s, u);
  }

  // ---- The store ----

  datatype Incident = Incident(monitor: MonitorId, cause: string, state: IncidentState, title: string,
                               resolvedAt: Option<Time>)

  datatype Update = Update(incident: IncidentId, state: IncidentState, body: string, postedBy: UserId)

  /** `owners` gives the owner of each monitor; incidents and updates are in the order of creation, and
      an incident's id is its place. */
  datatype Db = Db(owners: map<MonitorId, UserId>, incidents: seq<Incident>, updates: seq<Update>)

  // The unique index: a monitor has at most one incident without resolved_at.
  predicate HasOpen(incidents: seq<Incident>, m: MonitorId) {
    exists k :: 0 <= k < |incidents| && incidents[k].monitor == m && incidents[k].resolvedAt.None?
  }

  // The states of the updates of one incident, oldest first.
  function Timeline(updates: seq<Update>, i: IncidentId): seq<IncidentState> {
    if updates == [] then []
    else
      var rest := Timeline(updates[..|updates| - 1], i);
      if updates[|updates| - 1].incident == i then rest + [updates[|updates| - 1].state] else rest
  }

  // ---- The two operations ----

  /** `fails` says that one of the writes of the transaction, or its commit, goes wrong. */
  datatype Call =
    | CreateManual(monitor: MonitorId, user: UserId, title: string, body: string, fails: bool)
    | Change(incident: IncidentId, user: UserId, next: IncidentState, body: string, now: Time, fails: bool)

  predicate Accepts(db: Db, c: Call) {
    match c
    case CreateManual(m, user, title, body, _) =>
      Text.TrimSpace(title) != "" && Text.TrimSpace(body) != "" && m in db.owners && db.owners[m] == user
    case Change(i, user, next, body, _, _) =>
      && Valid(next) && Text.TrimSpace(body) != "" && i < |db.incidents|
      && db.incidents[i].monitor in db.owners && db.owners[db.incidents[i].monitor] == user
      && CanTransitionTo(db.incidents[i].state, next)
  }

  predicate Succeeds(db: Db, c: Call) {
    Accepts(db, c) && !c.fails && (c.CreateManual? ==> !HasOpen(db.incidents, c.monitor))
  }

  // What the transaction leaves when it commits.
  function Committed(db: Db, c: Call): Db {
    match c
    case CreateManual(m, user, title, body, _) =>
      var t := Text.TrimSpace(title);
      db.(incidents := db.incidents + [Incident(m, t, Investigating, t, None)],
          updates := db.updates + [Update(|db.incidents|, Investigating, Text.TrimSpace(body), user)])
    case Change(i, user, next, body, now, _) =>
      if i >= |db.incidents| then db
      else
        var inc := db.incidents[i].(state := next);
        db.(incidents := db.incidents[i := if next == Resolved then inc.(resolvedAt := Some(now)) else inc],
            updates := db.updates + [Update(i, next, body, user)])
  }

  function Apply(db: Db, c: Call): Db { if Succeeds(db, c) then Committed(db, c) else db }

  function Exec(db: Db, calls: seq<Call>): Db {
    if calls == [] then db else Apply(Exec(db, calls[..|calls| - 1]), calls[|calls| - 1])
  }

  // ---- What every serial run keeps ----

  ghost predicate Story(inc: Incident, tl: seq<IncidentState>) {
    && tl != [] && tl[|tl| - 1] == inc.state
    && (forall j :: 0 <= j < |tl| ==> Valid(tl[j]))
    && (forall j, k :: 0 <= j < k < |tl| ==> CanTransitionTo(tl[j], tl[k]))
    && (inc.resolvedAt.Some? <==> inc.state == Resolved)
  }

  ghost predicate Coherent(db: Db) {
    && (forall i :: 0 <= i < |db.incidents| ==> Story(db.incidents[i], Timeline(db.updates, i)))
    && (forall k :: 0 <= k < |db.updates| ==> db.updates[k].incident < |db.incidents|)
  }

  lemma AppendUpdate(updates: seq<Update>, u: Update, i: IncidentId)
    ensures Timeline(updates + [u], i) == Timeline(updates, i) + if u.incident == i then [u.state] else []
  {
    assert (updates + [u])[..|updates|] == updates;
  }

  lemma {:induction false} NoTimelineYet(updates: seq<Update>, i: IncidentId)
    requires forall k :: 0 <= k < |updates| ==> updates[k].incident != i
    ensures Timeline(updates, i) == []
  {
    if updates != [] { NoTimelineYet(updates[..|updates| - 1], i); }
  }

  lemma StoryGoesOn(inc: Incident, tl: seq<IncidentState>, next: IncidentState, now: Time)
    requires Story(inc, tl) && CanTransitionTo(inc.state, next)
    ensures var moved := inc.(state := next);
            Story(if next == Resolved then moved.(resolvedAt := Some(now)) else moved, tl + [next])
  {
    var n := |tl|;
    forall j | 0 <= j < n ensures CanTransitionTo(tl[j], next) {
      MovesAreLevels(tl[j], inc.state);
      MovesAreLevels(inc.state, next);
      MovesAreLevels(tl[j], next);
    }
  }

  lemma ApplyKeeps(db: Db, c: Call)
    requires Coherent(db)
    ensures Coherent(Apply(db, c))
  {
    if Succeeds(db, c) {
      var after := Committed(db, c);
      var u := after.updates[|db.updates|];
      forall i | 0 <= i < |after.incidents| ensures Story(after.incidents[i], Timeline(after.updates, i)) {
        AppendUpdate(db.updates, u, i);
        if i == |db.incidents| {
          NoTimelineYet(db.updates, i);
        } else if c.Change? && i == c.incident {
          StoryGoesOn(db.incidents[i], Timeline(db.updates, i), c.next, c.now);
        }
      }
    }
  }

  /** In every serial run, each incident's newest update shows its state, any earlier update could have
      moved to any later one directly, an update that says resolved is followed only by such updates,
      and resolved_at is set exactly when the state is resolved. */
  lemma {:induction false} TimelinesTellTheStory(owners: map<MonitorId, UserId>, calls: seq<Call>, i: IncidentId)
    requires i < |Exec(Db(owners, [], []), calls).incidents|
    ensures var db := Exec(Db(owners, [], []), calls);
            var tl := Timeline(db.updates, i);
            && tl != [] && tl[|tl| - 1] == db.incidents[i].state
            && (forall j, k :: 0 <= j < k < |tl| ==> CanTransitionTo(tl[j], tl[k]))
            && (forall j, k :: 0 <= j < k < |tl| && tl[j] == Resolved ==> tl[k] == Resolved)
            && (db.incidents[i].resolvedAt.Some? <==> db.incidents[i].state == Resolved)
  {
    RunCoherent(owners, calls);
  }

  lemma {:induction false} RunCoherent(owners: map<MonitorId, UserId>, calls: seq<Call>)
    ensures Coherent(Exec(Db(owners, [], []), calls))
  {
    if calls != [] {
      RunCoherent(owners, calls[..|calls| - 1]);
      ApplyKeeps(Exec(Db(owners, [], []), calls[..|calls| - 1]), calls[|calls| - 1]);
    }
  }

  // ---- Changes that overlap ----

  // Both changes pass the checks on the same store, and both commit.
  function Both(db: Db, c: Call, d: Call): Db { Committed(Committed(db, c), d) }

  lemma CommittedTimeline(db: Db, c: Call, i: IncidentId)
    requires c.Change? && c.incident < |db.incidents| && i < |db.incidents|
    ensures var after := Committed(db, c);
            && |after.incidents| == |db.incidents|
            && Timeline(after.updates, i) == Timeline(db.updates, i) + (if i == c.incident then [c.next] else [])
            && (i != c.incident ==> after.incidents[i] == db.incidents[i])
            && (i == c.incident ==> after.incidents[i].state == c.next)
  {
    AppendUpdate(db.updates, Update(c.incident, c.next, c.body, c.user), i);
  }

  lemma OverlapBreaks(db: Db, c: Call, d: Call)
    requires Coherent(db) && c.Change? && d.Change? && Accepts(db, c) && Accepts(db, d)
    requires c.incident == d.incident && !CanTransitionTo(c.next, d.next)
    ensures !Coherent(Both(db, c, d))
  {
    var i, tl := c.incident, Timeline(db.updates, c.incident);
    CommittedTimeline(db, c, i);
    CommittedTimeline(Committed(db, c), d, i);
    var both := Timeline(Both(db, c, d).updates, i);
    assert both[|tl|] == c.next && both[|tl| + 1] == d.next;
  }

  /** The transition is checked before the transaction starts, so two changes can both pass on the same
      state. Committing both keeps the timelines coherent exactly when they are about different
      incidents or the second could also have followed the first. */
  lemma OverlapExactly(db: Db, c: Call, d: Call)
    requires Coherent(db) && c.Change? && d.Change? && Accepts(db, c) && Accepts(db, d)
    ensures Coherent(Both(db, c, d)) <==> c.incident != d.incident || CanTransitionTo(c.next, d.next)
  {
    if c.incident != d.incident || CanTransitionTo(c.next, d.next) {
      var c' := Change(c.incident, c.user, c.next, c.body, c.now, false);
      var d' := Change(d.incident, d.user, d.next, d.body, d.now, false);
      var mid := Committed(db, c);
      assert Succeeds(db, c') && Apply(db, c') == mid;
      ApplyKeeps(db, c');
      CommittedTimeline(db, c, d.incident);
      assert Succeeds(mid, d') && Apply(mid, d') == Both(db, c, d);
      ApplyKeeps(mid, d');
    } else {
      OverlapBreaks(db, c, d);
    }
  }

  // A user opens an incident and puts it under monitoring.
  function Opening(user: UserId): seq<Call> {
    [CreateManual(0, user, "t", "b", false), Change(0, user, Monitoring, "b", 0, false)]
  }

  lemma Trimmed(s: string)
    requires s == "t" || s == "b"
    ensures Text.TrimSpace(s) == s
  {
    Text.TrimPadded("", s, "");
    assert "" + s + "" == s;
  }

  function Opened(user: UserId): Db {
    Db(map[0 := user], [Incident(0, "t", Monitoring, "t", None)],
       [Update(0, Investigating, "b", user), Update(0, Monitoring, "b", user)])
  }

  lemma TwoCalls(db: Db, c: Call, d: Call)
    ensures Exec(db, [c, d]) == Apply(Apply(db, c), d)
  {
    var one, two := [c], [c, d];
    assert two[..|two| - 1] == one && one[..|one| - 1] == [];
    assert Exec(db, one) == Apply(db, c);
  }

  lemma OpeningLeadsThere(user: UserId)
    ensures Exec(Db(map[0 := user], [], []), Opening(user)) == Opened(user)
  {
    var start, c, d := Db(map[0 := user], [], []), Opening(user)[0], Opening(user)[1];
    Trimmed("t");
    Trimmed("b");
    TwoCalls(start, c, d);
    var one := Db(map[0 := user], [Incident(0, "t", Investigating, "t", None)], [Update(0, Investigating, "b", user)]);
    assert Apply(start, c) == one;
    assert Apply(one, d) == Opened(user);
  }

  /** It does happen: in a store that two calls lead to, resolving and going back to identified can
      overlap, and leave the incident identified with resolved_at set. */
  lemma ChangesThatOverlapReopen(user: UserId, now: Time)
    ensures var db := Exec(Db(map[0 := user], [], []), Opening(user));
            var c, d := Change(0, user, Resolved, "b", now, false), Change(0, user, Identified, "b", now, false);
            && Coherent(db) && Accepts(db, c) && Accepts(db, d)
            && Both(db, c, d).incidents == [Incident(0, "t", Identified, "t", Some(now))]
  {
    OpeningLeadsThere(user);
    RunCoherent(map[0 := user], Opening(user));
    Trimmed("b");
  }

  // ---- The service ----

  class MonitoringService {
    var owners: map<MonitorId, UserId>
    var incidents: seq<Incident>
    var updates: seq<Update>

    constructor (owners: map<MonitorId, UserId>)
      ensures State() == Db(owners, [], [])
    {
      this.owners, incidents, updates := owners, [], [];
    }

    ghost function State(): Db
      reads this
    {
      Db(owners, incidents, updates)
    }

    /** The last four arguments say which writes of the transaction go well, and whether it commits. */
    method ChangeIncidentState(i: IncidentId, user: UserId, next: IncidentState, body: string, now: Time,
                               updateOk: bool, resolveOk: bool, appendOk: bool, commitOk: bool)
      returns (posted: Option<Update>)
      modifies this
      ensures var fails := !updateOk || (next == Resolved && !resolveOk) || !appendOk || !commitOk;
              var c := Change(i, user, next, body, now, fails);
              && State() == Apply(old(State()), c)
              && posted == if Succeeds(old(State()), c) then Some(Update(i, next, body, user)) else None
      ensures owners == old(owners)
      ensures posted.Some? ==>
                && i < |old(incidents)| && old(incidents)[i].monitor in owners
                && owners[old(incidents)[i].monitor] == user
                && incidents == old(incidents)[i := incidents[i]] && updates == old(updates) + [posted.value]
                && (var inc := old(incidents)[i];
                    incidents[i] == Incident(inc.monitor, inc.cause, next, inc.title,
                                             if next.Resolved? then Some(now) else inc.resolvedAt))
                && posted.value == Update(i, next, body, user)
      ensures posted.None? ==> incidents == old(incidents) && updates == old(updates)
      ensures posted.Some? <==>
              && i < |old(incidents)| && Text.TrimSpace(body) != ""
              && (var inc := old(incidents)[i];
                  && inc.monitor in owners && owners[inc.monitor] == user
                  && match inc.state
                     case Investigating => !next.Unknown?
                     case Resolved => next.Resolved?
                     case _ => next.Identified? || next.Monitoring? || next.Resolved?)
              && updateOk && (next.Resolved? ==> resolveOk) && appendOk && commitOk
    {
      if !Valid(next) { return None; }
      if Text.TrimSpace(body) == "" { return None; }
      if i >= |incidents| { return None; }
      var inc := incidents[i];
      if inc.monitor !in owners || owners[inc.monitor] != user { return None; }
      if !CanTransitionTo(inc.state, next) { return None; }
      var savedIncidents, savedUpdates := incidents, updates;
      var ok := updateOk;
      if ok { incidents := incidents[i := incidents[i].(state := next)]; }
      if ok && next == Resolved {
        ok := resolveOk;
        if ok { incidents := incidents[i := incidents[i].(state := Resolved, resolvedAt := Some(now))]; }
      }
      var u := Update(i, next, body, user);
      if ok {
        ok := appendOk;
        if ok { updates := updates + [u]; }
      }
      if !ok || !commitOk {
        incidents, updates := savedIncidents, savedUpdates;
        return None;
      }
      return Some(u);
    }

    method CreateManualIncident(m: MonitorId, user: UserId, rawTitle: string, rawBody: string,
                                createOk: bool, appendOk: bool, commitOk: bool)
      returns (created: Option<(IncidentId, Update)>)
      modifies this
      ensures var c := CreateManual(m, user, rawTitle, rawBody, !createOk || !appendOk || !commitOk);
              && State() == Apply(old(State()), c)
              && (created.Some? <==> Succeeds(old(State()), c))
              && (created.Some? ==> created.value.0 == |old(incidents)| && updates == old(updates) + [created.value.1])
      ensures owners == old(owners)
      ensures created.None? ==> incidents == old(incidents) && updates == old(updates)
      ensures created.Some? <==>
              && Text.TrimSpace(rawTitle) != "" && Text.TrimSpace(rawBody) != "" && m in owners && owners[m] == user
              && (forall k :: 0 <= k < |old(incidents)| && old(incidents)[k].monitor == m ==>
                    old(incidents)[k].resolvedAt.Some?)
              && createOk && appendOk && commitOk
      ensures created.Some? ==>
                var title := Text.TrimSpace(rawTitle);
                && incidents == old(incidents) + [Incident(m, title, Investigating, title, None)]
                && created.value.1 == Update(|old(incidents)|, Investigating, Text.TrimSpace(rawBody), user)
    {
      var title, body := Text.TrimSpace(rawTitle), Text.TrimSpace(rawBody);
      if title == "" { return None; }
      if body == "" { return None; }
      if m !in owners || owners[m] != user { return None; }
      var id, savedIncidents, savedUpdates := |incidents|, incidents, updates;
      var ok := createOk && !HasOpen(incidents, m);
      if ok { incidents := incidents + [Incident(m, title, Investigating, title, None)]; }
      var u := Update(id, Investigating, body, user);
      if ok {
        ok := appendOk;
        if ok { updates := updates + [u]; }
      }
      if !ok || !commitOk {
        incidents, updates := savedIncidents, savedUpdates;
        return None;
      }
      return Some((id, u));
    }
  }
}
