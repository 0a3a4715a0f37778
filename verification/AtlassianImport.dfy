/** Importing a Statuspage export: monitors, incidents and updates, all or nothing. */
module AtlassianImport {
  import opened Wrappers
  import opened IncidentTimeline

  // ---- The export ----

  datatype Component = Component(id: string, name: string, url: string)
  datatype Post = Post(status: string, body: string)
  datatype Event = Event(name: string, status: string, resolvedAt: Option<Time>, components: seq<string>,
                         posts: seq<Post>)
  datatype Export = Export(schemaVersion: string, components: seq<Component>, incidents: seq<Event>)

  // ---- The rows; ids are places in the order of creation ----

  datatype MonitorRow = MonitorRow(user: UserId, name: string, url: string)
  datatype IncidentRow = IncidentRow(monitor: MonitorId, cause: string, state: IncidentState, resolvedAt: Option<Time>)
  // The monitor of each component id.
  type Ids = map<string, MonitorId>

  datatype Tables = Tables(incidents: seq<IncidentRow>, updates: seq<Update>)
  datatype Counters = Counters(monitors: nat, incidents: nat, updates: nat, skipped: nat)

  // A monitor may have only one incident without resolved_at.
  ghost predicate OneOpen(incidents: seq<IncidentRow>) {
    forall j, k :: 0 <= j < k < |incidents| && incidents[j].monitor == incidents[k].monitor ==>
      incidents[j].resolvedAt.Some? || incidents[k].resolvedAt.Some?
  }

  predicate HasOpenRow(incidents: seq<IncidentRow>, m: MonitorId) {
    exists k :: 0 <= k < |incidents| && incidents[k].monitor == m && incidents[k].resolvedAt.None?
  }

  // ---- What an export means ----

  function MapAtlassianState(s: string): Option<IncidentState> {
    if s == "investigating" then Some(Investigating)
    else if s == "identified" then Some(Identified)
    else if s == "monitoring" then Some(Monitoring)
    else if s == "resolved" || s == "postmortem" then Some(Resolved)
    else None
  }

  // The state each status text stands for.
  predicate Shows(status: string, state: IncidentState) {
    match state
    case Investigating => status == "investigating"
    case Identified => status == "identified"
    case Monitoring => status == "monitoring"
    case Resolved => status == "resolved" || status == "postmortem"
    case Unknown(_) => false
  }

  /** The five known texts; a postmortem counts as resolved. */
  lemma StatesByText(s: string, state: IncidentState)
    ensures MapAtlassianState(s) == Some(state) <==> Shows(s, state)
    ensures MapAtlassianState(s).Some? <==>
            || s == "investigating" || s == "identified" || s == "monitoring" || s == "resolved" || s == "postmortem"
  {
    assert "investigating" != "identified" && "investigating" != "monitoring" && "identified" != "monitoring";
    assert "resolved" != "investigating" && "resolved" != "identified" && "resolved" != "monitoring";
    assert |"postmortem"| == 10 == |"monitoring"| && "postmortem"[0] != "monitoring"[0];
    assert |"identified"| == 10 && "postmortem"[0] != "identified"[0];
  }

  function MonitorsFrom(user: UserId, c: Component): seq<MonitorRow> {
    if c.url == "" then [] else [MonitorRow(user, c.name, c.url)]
  }

  function MonitorsOf(user: UserId, comps: seq<Component>): seq<MonitorRow> {
    if comps == [] then [] else MonitorsOf(user, comps[..|comps| - 1]) + MonitorsFrom(user, comps[|comps| - 1])
  }

  // The map from component ids to monitors; a later component of the same id replaces an earlier one.
  function IdsOf(base: nat, user: UserId, comps: seq<Component>): Ids {
    if comps == [] then map[]
    else
      var rest := comps[..|comps| - 1];
      IdsWith(IdsOf(base, user, rest), comps[|comps| - 1], base + |MonitorsOf(user, rest)|)
  }

  function IdsWith(ids: Ids, c: Component, m: MonitorId): Ids {
    if c.url == "" then ids else ids[c.id := m]
  }

  function PickMonitorForIncident(components: seq<string>, ids: Ids): Option<MonitorId> {
    if components == [] then None
    else if components[0] in ids then Some(ids[components[0]])
    else PickMonitorForIncident(components[1..], ids)
  }

  function StateOf(s: string): IncidentState {
    match MapAtlassianState(s)
    case Some(state) => state
    case None => Unknown(s)
  }

  // Resolving an incident also sets its state.
  function RowOf(e: Event, m: MonitorId): IncidentRow {
    IncidentRow(m, e.name, if e.resolvedAt.Some? then Resolved else StateOf(e.status), e.resolvedAt)
  }

  function RowsFrom(ids: Ids, e: Event): seq<IncidentRow> {
    match PickMonitorForIncident(e.components, ids)
    case Some(m) => [RowOf(e, m)]
    case None => []
  }

  function IncidentsOf(ids: Ids, events: seq<Event>): seq<IncidentRow> {
    if events == [] then [] else IncidentsOf(ids, events[..|events| - 1]) + RowsFrom(ids, events[|events| - 1])
  }

  function PostsOf(user: UserId, id: IncidentId, posts: seq<Post>): seq<Update> {
    seq(|posts|, k requires 0 <= k < |posts| => Update(id, StateOf(posts[k].status), posts[k].body, user))
  }

  function UpdatesFrom(ids: Ids, user: UserId, id: IncidentId, e: Event): seq<Update> {
    if PickMonitorForIncident(e.components, ids).Some? then PostsOf(user, id, e.posts) else []
  }

  function UpdatesOf(ids: Ids, user: UserId, base: nat, events: seq<Event>): seq<Update> {
    if events == [] then []
    else
      var rest := events[..|events| - 1];
      UpdatesOf(ids, user, base, rest) + UpdatesFrom(ids, user, base + |IncidentsOf(ids, rest)|, events[|events| - 1])
  }

  // ---- Which exports can be imported ----

  predicate KnownStates(e: Event) {
    MapAtlassianState(e.status).Some? && forall k :: 0 <= k < |e.posts| ==> MapAtlassianState(e.posts[k].status).Some?
  }

  predicate SameMonitor(ids: Ids, e: Event, f: Event) {
    var m := PickMonitorForIncident(e.components, ids);
    m.Some? && m == PickMonitorForIncident(f.components, ids)
  }

  // Every incident that gets a monitor has known states, and the monitor has no earlier incident in the
  // export that is left without resolved_at.
  ghost predicate Importable(ids: Ids, events: seq<Event>) {
    && (forall k :: 0 <= k < |events| && PickMonitorForIncident(events[k].components, ids).Some? ==>
          KnownStates(events[k]))
    && (forall j, k :: 0 <= j < k < |events| && SameMonitor(ids, events[j], events[k]) ==> events[j].resolvedAt.Some?)
  }

  lemma {:induction false} OpenRowsOf(ids: Ids, events: seq<Event>, m: MonitorId)
    ensures HasOpenRow(IncidentsOf(ids, events), m) <==>
            exists j :: 0 <= j < |events| && events[j].resolvedAt.None? &&
                        PickMonitorForIncident(events[j].components, ids) == Some(m)
  {
    if events != [] {
      var n := |events| - 1;
      var before, after := IncidentsOf(ids, events[..n]), IncidentsOf(ids, events);
      OpenRowsOf(ids, events[..n], m);
      assert forall j :: 0 <= j < n ==> events[..n][j] == events[j];
      assert forall k :: 0 <= k < |before| ==> after[k] == before[k];
      if PickMonitorForIncident(events[n].components, ids) == Some(m) {
        assert after[|before|] == RowOf(events[n], m);
      }
    }
  }

  lemma OpenIn(a: seq<IncidentRow>, b: seq<IncidentRow>, m: MonitorId)
    requires !HasOpenRow(a, m)
    ensures HasOpenRow(a + b, m) <==> HasOpenRow(b, m)
  {
    if HasOpenRow(b, m) {
      var k :| 0 <= k < |b| && b[k].monitor == m && b[k].resolvedAt.None?;
      assert (a + b)[|a| + k] == b[k];
    }
    if HasOpenRow(a + b, m) {
      var k :| 0 <= k < |a + b| && (a + b)[k].monitor == m && (a + b)[k].resolvedAt.None?;
      assert k >= |a| && b[k - |a|] == (a + b)[k];
    }
  }

  lemma {:induction false} FreshIds(base: nat, user: UserId, comps: seq<Component>, id: string)
    requires id in IdsOf(base, user, comps)
    ensures base <= IdsOf(base, user, comps)[id] < base + |MonitorsOf(user, comps)|
  {
    var n := |comps| - 1;
    if comps[n].url == "" || comps[n].id != id { FreshIds(base, user, comps[..n], id); }
  }

  lemma {:induction false} PickedIsMapped(components: seq<string>, ids: Ids)
    ensures match PickMonitorForIncident(components, ids)
            case None => forall q :: 0 <= q < |components| ==> components[q] !in ids
            case Some(m) =>
              exists p :: 0 <= p < |components| && FirstMapped(components, ids, p) && ids[components[p]] == m
  {
    if components != [] {
      if components[0] in ids {
        assert FirstMapped(components, ids, 0);
      } else {
        PickedIsMapped(components[1..], ids);
        if PickMonitorForIncident(components[1..], ids).Some? {
          var p :| 0 <= p < |components[1..]| && FirstMapped(components[1..], ids, p)
            && Some(ids[components[1..][p]]) == PickMonitorForIncident(components[1..], ids);
          assert forall q :: 0 < q < p + 1 ==> components[q] == components[1..][q - 1];
          assert FirstMapped(components, ids, p + 1);
        } else {
          assert forall q :: 0 < q < |components| ==> components[q] == components[1..][q - 1];
        }
      }
    }
  }

  ghost predicate FirstMapped(components: seq<string>, ids: Ids, p: nat) {
    p < |components| && components[p] in ids && forall q :: 0 <= q < p ==> components[q] !in ids
  }

  // `c` is the last component of its id that has a URL.
  ghost predicate LastOfItsId(comps: seq<Component>, c: nat) {
    && c < |comps| && comps[c].url != ""
    && forall d :: c < d < |comps| && comps[d].id == comps[c].id ==> comps[d].url == ""
  }

  ghost predicate HasUrl(comps: seq<Component>, id: string) {
    exists c :: 0 <= c < |comps| && comps[c].id == id && comps[c].url != ""
  }

  ghost predicate ComesFrom(user: UserId, comps: seq<Component>, id: string, row: MonitorRow) {
    exists c: nat :: LastOfItsId(comps, c) && comps[c].id == id && row == MonitorRow(user, comps[c].name, comps[c].url)
  }

  lemma ComesFromLonger(user: UserId, comps: seq<Component>, last: Component, id: string, row: MonitorRow)
    requires ComesFrom(user, comps, id, row) && (last.url == "" || last.id != id)
    ensures ComesFrom(user, comps + [last], id, row)
  {
    var c: nat :| LastOfItsId(comps, c) && comps[c].id == id && row == MonitorRow(user, comps[c].name, comps[c].url);
    assert LastOfItsId(comps + [last], c);
  }

  lemma HasUrlLonger(comps: seq<Component>, last: Component, id: string)
    ensures HasUrl(comps + [last], id) <==> HasUrl(comps, id) || (last.id == id && last.url != "")
  {
    var all := comps + [last];
    assert all[|comps|] == last;
    if HasUrl(comps, id) {
      var c :| 0 <= c < |comps| && comps[c].id == id && comps[c].url != "";
      assert all[c] == comps[c];
    }
  }

  lemma {:induction false} MappedExactly(base: nat, user: UserId, comps: seq<Component>, id: string)
    ensures id in IdsOf(base, user, comps) <==> HasUrl(comps, id)
  {
    if comps != [] {
      var n := |comps| - 1;
      MappedExactly(base, user, comps[..n], id);
      assert comps == comps[..n] + [comps[n]];
      HasUrlLonger(comps[..n], comps[n], id);
    }
  }

  // The monitor of a mapped id, as a row.
  function RowOfId(base: nat, user: UserId, comps: seq<Component>, id: string): MonitorRow
    requires id in IdsOf(base, user, comps)
  {
    FreshIds(base, user, comps, id);
    MonitorsOf(user, comps)[IdsOf(base, user, comps)[id] - base]
  }

  lemma RowOfIdLonger(base: nat, user: UserId, before: seq<Component>, last: Component, id: string)
    requires id in IdsOf(base, user, before + [last])
    ensures var row := RowOfId(base, user, before + [last], id);
            if last.id == id && last.url != "" then row == MonitorRow(user, last.name, last.url)
            else id in IdsOf(base, user, before) && row == RowOfId(base, user, before, id)
  {
    OneMoreComponent(base, user, before, last);
    if !(last.id == id && last.url != "") { FreshIds(base, user, before, id); }
  }

  lemma {:induction false} MonitorOfId(base: nat, user: UserId, comps: seq<Component>, id: string)
    requires id in IdsOf(base, user, comps)
    ensures ComesFrom(user, comps, id, RowOfId(base, user, comps, id))
  {
    var n := |comps| - 1;
    assert comps == comps[..n] + [comps[n]];
    RowOfIdLonger(base, user, comps[..n], comps[n], id);
    if comps[n].id == id && comps[n].url != "" {
      assert LastOfItsId(comps, n);
    } else {
      MonitorOfId(base, user, comps[..n], id);
      ComesFromLonger(user, comps[..n], comps[n], id, RowOfId(base, user, comps[..n], id));
    }
  }

  // The first of the ids that names a component with a URL.
  ghost predicate FirstWithUrl(comps: seq<Component>, components: seq<string>, p: nat) {
    p < |components| && HasUrl(comps, components[p]) && forall q :: 0 <= q < p ==> !HasUrl(comps, components[q])
  }

  /** An incident is attached to a monitor created by this import, for the importing user, from the last
      component with a URL of the first of its component ids that has one; without any such id it is
      skipped. */
  lemma {:induction false} AttachedToFirstMapped(base: nat, user: UserId, comps: seq<Component>,
                                                 components: seq<string>)
    ensures match PickMonitorForIncident(components, IdsOf(base, user, comps))
            case None => forall q :: 0 <= q < |components| ==> !HasUrl(comps, components[q])
            case Some(m) => exists p: nat ::
              && FirstWithUrl(comps, components, p) && base <= m < base + |MonitorsOf(user, comps)|
              && ComesFrom(user, comps, components[p], MonitorsOf(user, comps)[m - base])
  {
    var ids := IdsOf(base, user, comps);
    PickedIsMapped(components, ids);
    forall q | 0 <= q < |components| ensures components[q] in ids <==> HasUrl(comps, components[q]) {
      MappedExactly(base, user, comps, components[q]);
    }
    if PickMonitorForIncident(components, ids).Some? {
      var p: nat :| p < |components| && FirstMapped(components, ids, p) &&
        Some(ids[components[p]]) == PickMonitorForIncident(components, ids);
      MonitorOfId(base, user, comps, components[p]);
      FreshIds(base, user, comps, components[p]);
      assert FirstWithUrl(comps, components, p);
    }
  }

  // ---- The calls that one import makes ----

  function CallsFor(ids: Ids, e: Event): nat {
    if PickMonitorForIncident(e.components, ids).None? then 0
    else 1 + (if e.resolvedAt.Some? then 1 else 0) + |e.posts|
  }

  function EventsCalls(ids: Ids, events: seq<Event>): nat {
    if events == [] then 0 else EventsCalls(ids, events[..|events| - 1]) + CallsFor(ids, events[|events| - 1])
  }

  // None of the calls numbered from `a` up to `b` fails.
  ghost predicate Quiet(faults: set<nat>, a: nat, b: nat) { forall f :: f in faults ==> !(a <= f < b) }

  lemma {:induction false} CallsUpTo(ids: Ids, events: seq<Event>, k: nat)
    requires k < |events|
    ensures EventsCalls(ids, events[..k]) + CallsFor(ids, events[k]) <= EventsCalls(ids, events)
    decreases |events|
  {
    var n := |events| - 1;
    if k < n {
      CallsUpTo(ids, events[..n], k);
      assert events[..n][..k] == events[..k];
    }
  }

  // Whether an event can follow what is already there.
  ghost predicate CanFollow(ids: Ids, incidents: seq<IncidentRow>, e: Event) {
    match PickMonitorForIncident(e.components, ids)
    case None => true
    case Some(m) => KnownStates(e) && !HasOpenRow(incidents, m)
  }

  lemma ImportablePrefix(ids: Ids, events: seq<Event>, k: nat)
    requires k < |events| && Importable(ids, events[..k])
    ensures Importable(ids, events[..k + 1]) <==> CanFollow(ids, IncidentsOf(ids, events[..k]), events[k])
    ensures !Importable(ids, events[..k + 1]) ==> !Importable(ids, events)
  {
    var picked := PickMonitorForIncident(events[k].components, ids);
    OpenRowsOf(ids, events[..k], if picked.Some? then picked.value else 0);
    var longer := events[..k + 1];
    assert forall j :: 0 <= j < k ==> longer[j] == events[..k][j];
    assert forall j :: 0 <= j < k + 1 ==> longer[j] == events[j];
    if PickMonitorForIncident(events[k].components, ids).Some? && Importable(ids, longer) {
      assert forall j :: 0 <= j < k && SameMonitor(ids, longer[j], longer[k]) ==> longer[j].resolvedAt.Some?;
    }
  }

  /** The rows of one imported incident: its name, its time of resolution, the state that its status text
      stands for unless it is resolved, and one update per post, in order, with the state of its text. */
  ghost predicate EventAdded(e: Event, m: MonitorId, user: UserId, incidents0: seq<IncidentRow>, updates0: seq<Update>,
                             incidents: seq<IncidentRow>, updates: seq<Update>) {
    var id := |incidents0|;
    && |incidents| == id + 1 && incidents0 <= incidents
    && incidents[id].monitor == m && incidents[id].cause == e.name && incidents[id].resolvedAt == e.resolvedAt
    && (if e.resolvedAt.Some? then incidents[id].state.Resolved? else Shows(e.status, incidents[id].state))
    && |updates| == |updates0| + |e.posts| && updates0 <= updates
    && forall k :: |updates0| <= k < |updates| ==>
         var post := e.posts[k - |updates0|];
         && updates[k].incident == id && updates[k].postedBy == user && updates[k].body == post.body
         && Shows(post.status, updates[k].state)
  }

  lemma AddedShows(ids: Ids, user: UserId, now: Tables, e: Event)
    requires PickMonitorForIncident(e.components, ids).Some? && KnownStates(e)
    ensures var after := Added(ids, user, now, e);
            EventAdded(e, PickMonitorForIncident(e.components, ids).value, user, now.incidents, now.updates,
                       after.incidents, after.updates)
  {
    var after := Added(ids, user, now, e);
    StatesByText(e.status, StateOf(e.status));
    forall k | |now.updates| <= k < |after.updates|
      ensures var post := e.posts[k - |now.updates|];
              after.updates[k] == Update(|now.incidents|, StateOf(post.status), post.body, user) &&
              Shows(post.status, StateOf(post.status))
    {
      var post := e.posts[k - |now.updates|];
      StatesByText(post.status, StateOf(post.status));
    }
  }

  // What one more event adds to the rows and to the calls.
  lemma OneMoreIncident(ids: Ids, before: seq<Event>, e: Event)
    ensures IncidentsOf(ids, before + [e]) == IncidentsOf(ids, before) + RowsFrom(ids, e)
    ensures EventsCalls(ids, before + [e]) == EventsCalls(ids, before) + CallsFor(ids, e)
  {
    assert (before + [e])[..|before|] == before;
  }

  lemma OneMoreUpdates(ids: Ids, user: UserId, base: nat, before: seq<Event>, e: Event)
    ensures UpdatesOf(ids, user, base, before + [e]) ==
            UpdatesOf(ids, user, base, before) + UpdatesFrom(ids, user, base + |IncidentsOf(ids, before)|, e)
  {
    var after := before + [e];
    assert after != [] && |after| - 1 == |before|;
    assert after[..|before|] == before;
    assert after[|before|] == e;
  }

  // Rows of other monitors do not matter.
  lemma FollowsToo(ids: Ids, a: seq<IncidentRow>, b: seq<IncidentRow>, e: Event)
    requires forall id :: id in ids ==> !HasOpenRow(a, ids[id])
    ensures CanFollow(ids, a + b, e) <==> CanFollow(ids, b, e)
  {
    PickedIsMapped(e.components, ids);
    var picked := PickMonitorForIncident(e.components, ids);
    if picked.Some? { OpenIn(a, b, picked.value); }
  }

  // From `was` to `now`, exactly `events` have been imported, in so many calls.
  ghost predicate Progress(ids: Ids, user: UserId, was: Tables, now: Tables, calls: nat, events: seq<Event>) {
    && now.incidents == was.incidents + IncidentsOf(ids, events)
    && now.updates == was.updates + UpdatesOf(ids, user, |was.incidents|, events)
    && calls == EventsCalls(ids, events)
  }

  function Added(ids: Ids, user: UserId, now: Tables, e: Event): Tables {
    Tables(now.incidents + RowsFrom(ids, e), now.updates + UpdatesFrom(ids, user, |now.incidents|, e))
  }

  lemma Regroup<T>(a: seq<T>, b: seq<T>, c: seq<T>)
    ensures (a + b) + c == a + (b + c)
  {
  }

  lemma Extends(ids: Ids, user: UserId, was: Tables, now: Tables, calls: nat, before: seq<Event>, e: Event)
    requires Progress(ids, user, was, now, calls, before)
    ensures Progress(ids, user, was, Added(ids, user, now, e), calls + CallsFor(ids, e), before + [e])
  {
    OneMoreIncident(ids, before, e);
    Regroup(was.incidents, IncidentsOf(ids, before), RowsFrom(ids, e));
    ExtendsUpdates(ids, user, was, now, calls, before, e);
  }

  lemma ExtendsUpdates(ids: Ids, user: UserId, was: Tables, now: Tables, calls: nat, before: seq<Event>, e: Event)
    requires Progress(ids, user, was, now, calls, before)
    ensures Added(ids, user, now, e).updates == was.updates + UpdatesOf(ids, user, |was.incidents|, before + [e])
  {
    var base, id := |was.incidents|, |now.incidents|;
    var posts, more := UpdatesOf(ids, user, base, before), UpdatesFrom(ids, user, id, e);
    assert id == base + |IncidentsOf(ids, before)|;
    OneMoreUpdates(ids, user, base, before, e);
    assert UpdatesOf(ids, user, base, before + [e]) == posts + more;
    Regroup(was.updates, posts, more);
  }

  lemma Progresses(ids: Ids, user: UserId, was: Tables, now: Tables, calls: nat, events: seq<Event>, k: nat)
    requires k < |events| && Progress(ids, user, was, now, calls, events[..k]) && Importable(ids, events[..k])
    requires forall id :: id in ids ==> !HasOpenRow(was.incidents, ids[id])
    ensures !CanFollow(ids, now.incidents, events[k]) ==> !Importable(ids, events)
    ensures CanFollow(ids, now.incidents, events[k]) ==> Importable(ids, events[..k + 1])
    ensures Progress(ids, user, was, Added(ids, user, now, events[k]), calls + CallsFor(ids, events[k]),
                     events[..k + 1])
  {
    var e := events[k];
    FollowsToo(ids, was.incidents, IncidentsOf(ids, events[..k]), e);
    ImportablePrefix(ids, events, k);
    assert events[..k + 1] == events[..k] + [e];
    Extends(ids, user, was, now, calls, events[..k], e);
  }

  // The first `k` of `events` have been imported, and so far they could be.
  ghost predicate UpTo(ids: Ids, user: UserId, was: Tables, now: Tables, calls: nat, events: seq<Event>, k: nat) {
    k <= |events| && Progress(ids, user, was, now, calls, events[..k]) && Importable(ids, events[..k])
  }

  // One more incident has been imported.
  lemma NextUpTo(ids: Ids, user: UserId, was: Tables, now: Tables, after: Tables, used: nat, events: seq<Event>, k: nat)
    requires k < |events| && UpTo(ids, user, was, now, used, events, k)
    requires forall id :: id in ids ==> !HasOpenRow(was.incidents, ids[id])
    requires CanFollow(ids, now.incidents, events[k]) && after == Added(ids, user, now, events[k])
    ensures UpTo(ids, user, was, after, used + CallsFor(ids, events[k]), events, k + 1)
  {
    Progresses(ids, user, was, now, used, events, k);
  }

  // What stops one incident stops the whole list.
  lemma StopsAll(ids: Ids, user: UserId, was: Tables, now: Tables, used: nat, events: seq<Event>, k: nat,
                 faults: set<nat>, calls: nat)
    requires k < |events| && UpTo(ids, user, was, now, used, events, k)
    requires forall id :: id in ids ==> !HasOpenRow(was.incidents, ids[id])
    ensures Importable(ids, events) && Quiet(faults, calls, calls + EventsCalls(ids, events)) ==>
              CanFollow(ids, now.incidents, events[k]) &&
              Quiet(faults, calls + used, calls + used + CallsFor(ids, events[k]))
  {
    Progresses(ids, user, was, now, used, events, k);
    CallsUpTo(ids, events, k);
  }

  lemma UpToStart(ids: Ids, user: UserId, was: Tables, events: seq<Event>)
    ensures UpTo(ids, user, was, was, 0, events, 0)
  {
    assert was.incidents + [] == was.incidents && was.updates + [] == was.updates;
  }

  // From `was` to `now`, all of `events` have been imported, as so many rows.
  ghost predicate AllAdded(ids: Ids, user: UserId, was: Tables, now: Tables, events: seq<Event>, count: nat,
                           posts: nat) {
    && now.incidents == was.incidents + IncidentsOf(ids, events)
    && now.updates == was.updates + UpdatesOf(ids, user, |was.incidents|, events)
    && count == |IncidentsOf(ids, events)| && posts == |UpdatesOf(ids, user, |was.incidents|, events)|
  }

  lemma UpToEnd(ids: Ids, user: UserId, was: Tables, now: Tables, calls: nat, events: seq<Event>, count: nat,
                posts: nat)
    requires UpTo(ids, user, was, now, calls, events, |events|)
    requires count == |now.incidents| - |was.incidents| && posts == |now.updates| - |was.updates|
    ensures AllAdded(ids, user, was, now, events, count, posts)
    ensures calls == EventsCalls(ids, events) && Importable(ids, events)
  {
    assert events[..|events|] == events;
  }

  // ---- The importer ----

  class AtlassianImporter {
    var monitors: seq<MonitorRow>
    var incidents: seq<IncidentRow>
    var updates: seq<Update>

    constructor ()
      ensures Valid()
    {
      monitors, incidents, updates := [], [], [];
    }

    ghost predicate Valid()
      reads this
    {
      OneOpen(incidents) && forall k :: 0 <= k < |incidents| ==> incidents[k].monitor < |monitors|
    }

    // The components loop.
    method ImportComponents(user: UserId, comps: seq<Component>, faults: set<nat>)
      returns (ok: bool, ids: Ids, res: Counters)
      modifies this`monitors
      ensures ok <==> Quiet(faults, 0, |MonitorsOf(user, comps)|)
      ensures ok <==> forall f :: f in faults ==> f >= |MonitorsOf(user, comps)|
      ensures ok ==>
        && monitors == old(monitors) + MonitorsOf(user, comps) && ids == IdsOf(|old(monitors)|, user, comps)
        && res.monitors == |MonitorsOf(user, comps)| && res.monitors + res.skipped == |comps|
    {
      ids, res := map[], Counters(0, 0, 0, 0);
      ghost var was := monitors;
      for k := 0 to |comps|
        invariant Created(was, monitors, ids, user, comps[..k])
        invariant res.monitors == |monitors| - |was| && res.monitors + res.skipped == k
        invariant Quiet(faults, 0, res.monitors)
      {
        var c := comps[k];
        assert comps[..k + 1] == comps[..k] + [c];
        CreatedMore(was, monitors, ids, user, comps[..k], c);
        MonitorsUpTo(user, comps, k);
        if c.url == "" {
          assert monitors + [] == monitors;
          res := res.(skipped := res.skipped + 1);
          continue;
        }
        if res.monitors in faults { return false, ids, res; }
        var id := |monitors|;
        monitors := monitors + [MonitorRow(user, c.name, c.url)];
        ids := ids[c.id := id];
        res := res.(monitors := res.monitors + 1);
      }
      assert comps[..|comps|] == comps;
      ok := true;
    }

    // One incident with its updates; `calls` numbers the next call.
    method ImportIncident(user: UserId, e: Event, ids: Ids, faults: set<nat>, calls: nat)
      returns (ok: bool, rows: nat, posts: nat)
      modifies this`incidents, this`updates
      ensures ok <==> CanFollow(ids, old(incidents), e) && Quiet(faults, calls, calls + CallsFor(ids, e))
      ensures ok ==>
        && Tables(incidents, updates) == Added(ids, user, Tables(old(incidents), old(updates)), e)
        && rows == |incidents| - |old(incidents)| && posts == |updates| - |old(updates)|
      ensures ok && PickMonitorForIncident(e.components, ids).None? ==>
        incidents == old(incidents) && updates == old(updates)
      ensures ok && PickMonitorForIncident(e.components, ids).Some? ==>
        && EventAdded(e, PickMonitorForIncident(e.components, ids).value, user, old(incidents), old(updates),
                      incidents, updates)
        && (forall f :: f in faults ==> !(calls <= f <= calls + |e.posts| + if e.resolvedAt.Some? then 1 else 0))
    {
      rows, posts := 0, 0;
      var picked := PickMonitorForIncident(e.components, ids);
      if picked.None? { return true, 0, 0; }
      var m := picked.value;
      var state := MapAtlassianState(e.status);
      if state.None? { return false, 0, 0; }
      var id := |incidents|;
      if calls in faults || HasOpenRow(incidents, m) { return false, 0, 0; }
      incidents := incidents + [IncidentRow(m, e.name, state.value, None)];
      rows := 1;
      var next := calls + 1;
      if e.resolvedAt.Some? {
        if next in faults { return false, 0, 0; }
        incidents := incidents[id := incidents[id].(resolvedAt := e.resolvedAt, state := Resolved)];
        next := next + 1;
      }
      assert incidents == old(incidents) + [RowOf(e, m)];
      for k := 0 to |e.posts|
        invariant incidents == old(incidents) + [RowOf(e, m)] && posts == k
        invariant updates == old(updates) + PostsOf(user, id, e.posts[..k])
        invariant forall j :: 0 <= j < k ==> MapAtlassianState(e.posts[j].status).Some?
        invariant Quiet(faults, calls, next + k)
      {
        var uState := MapAtlassianState(e.posts[k].status);
        if uState.None? || next + k in faults { return false, rows, posts; }
        updates := updates + [Update(id, uState.value, e.posts[k].body, user)];
        assert e.posts[..k + 1] == e.posts[..k] + [e.posts[k]];
        posts := posts + 1;
      }
      assert e.posts[..|e.posts|] == e.posts;
      AddedShows(ids, user, Tables(old(incidents), old(updates)), e);
      ok := true;
    }

    // The body of the incidents loop; `used` counts the calls of the incidents so far.
    method ImportNext(user: UserId, events: seq<Event>, k: nat, ids: Ids, faults: set<nat>, calls: nat,
                      used: nat, ghost was: Tables) returns (ok: bool, more: nat, rows: nat, posts: nat)
      requires k < |events| && UpTo(ids, user, was, Tables(incidents, updates), used, events, k)
      requires forall id :: id in ids ==> !HasOpenRow(was.incidents, ids[id])
      modifies this`incidents, this`updates
      ensures ok ==>
        && UpTo(ids, user, was, Tables(incidents, updates), used + more, events, k + 1)
        && Quiet(faults, calls + used, calls + used + more)
        && rows == |incidents| - |old(incidents)| && posts == |updates| - |old(updates)|
      ensures !ok ==> !Importable(ids, events) || !Quiet(faults, calls, calls + EventsCalls(ids, events))
    {
      ghost var now := Tables(incidents, updates);
      StopsAll(ids, user, was, now, used, events, k, faults, calls);
      more := CallsFor(ids, events[k]);
      ok, rows, posts := ImportIncident(user, events[k], ids, faults, calls + used);
      if ok { NextUpTo(ids, user, was, now, Tables(incidents, updates), used, events, k); }
    }

    // The incidents loop.
    method ImportIncidents(user: UserId, events: seq<Event>, ids: Ids, faults: set<nat>, calls: nat)
      returns (ok: bool, count: nat, posts: nat)
      requires forall id :: id in ids ==> !HasOpenRow(incidents, ids[id])
      modifies this`incidents, this`updates
      ensures ok <==> Importable(ids, events) && Quiet(faults, calls, calls + EventsCalls(ids, events))
      ensures ok ==> AllAdded(ids, user, Tables(old(incidents), old(updates)), Tables(incidents, updates), events,
                              count, posts)
    {
      count, posts := 0, 0;
      var used: nat := 0;
      ghost var was := Tables(incidents, updates);
      UpToStart(ids, user, was, events);
      for k := 0 to |events|
        invariant UpTo(ids, user, was, Tables(incidents, updates), used, events, k)
        invariant count == |incidents| - |was.incidents| && posts == |updates| - |was.updates|
        invariant Quiet(faults, calls, calls + used)
      {
        var done, moreCalls, moreRows, morePosts := ImportNext(user, events, k, ids, faults, calls, used, was);
        if !done { return false, count, posts; }
        used, count, posts := used + moreCalls, count + moreRows, posts + morePosts;
      }
      UpToEnd(ids, user, was, Tables(incidents, updates), used, events, count, posts);
      ok := true;
    }

    // What runs inside the transaction.
    method ImportRows(user: UserId, exp: Export, faults: set<nat>) returns (ok: bool, res: Counters)
      requires Valid()
      modifies this
      ensures exp.schemaVersion == SCHEMA ==> (ok <==> GoesThrough(|old(monitors)|, user, exp, faults))
      ensures ok ==> Imported(user, exp, old(monitors), old(incidents), old(updates), res)
    {
      ghost var base := |monitors|;
      var ids;
      ok, ids, res := ImportComponents(user, exp.components, faults);
      if !ok { return; }
      NoneOpenYet(base, user, exp.components, incidents);
      var count, posts;
      ok, count, posts := ImportIncidents(user, exp.incidents, ids, faults, res.monitors);
      res := res.(incidents := count, updates := posts);
    }

    /** The rows are those there were and those that the export means, and the counters count these. */
    ghost predicate Imported(user: UserId, exp: Export, monitors0: seq<MonitorRow>, incidents0: seq<IncidentRow>,
                             updates0: seq<Update>, res: Counters)
      reads this
    {
      var ids := IdsOf(|monitors0|, user, exp.components);
      && monitors == monitors0 + MonitorsOf(user, exp.components)
      && incidents == incidents0 + IncidentsOf(ids, exp.incidents)
      && updates == updates0 + UpdatesOf(ids, user, |incidents0|, exp.incidents)
      && res.monitors == |monitors| - |monitors0|
      && res.incidents == |incidents| - |incidents0|
      && res.updates == |updates| - |updates0|
      && res.monitors + res.skipped == |exp.components|
    }

    /** The whole import, in one transaction: `src` is None when the body cannot be read as JSON, and
        `faults` numbers the repository calls that fail. It goes through exactly when the schema
        version is known, the export is importable and no call nor the commit fails. Then the store holds
        what the export means and the counters count the rows added; otherwise nothing has changed. */
    method Import(user: UserId, src: Option<Export>, faults: set<nat>, commitOk: bool) returns (ok: bool, res: Counters)
      requires Valid()
      modifies this
      ensures Valid()
      ensures ok <==> src.Some? && commitOk && GoesThrough(|old(monitors)|, user, src.value, faults)
      ensures !ok ==>
        && monitors == old(monitors) && incidents == old(incidents) && updates == old(updates)
        && res == Counters(0, 0, 0, 0)
      ensures ok ==> Imported(user, src.value, old(monitors), old(incidents), old(updates), res)
      ensures ok ==> src.value.schemaVersion == "1.0"
    {
      if src.None? || src.value.schemaVersion != SCHEMA { return false, Counters(0, 0, 0, 0); }
      var savedMonitors, savedIncidents, savedUpdates := monitors, incidents, updates;
      ok, res := ImportRows(user, src.value, faults);
      if !ok || !commitOk {
        monitors, incidents, updates := savedMonitors, savedIncidents, savedUpdates;
        return false, Counters(0, 0, 0, 0);
      }
      ghost var base, comps := |savedMonitors|, src.value.components;
      StaysValid(savedIncidents, base, user, comps, IdsOf(base, user, comps), src.value.incidents);
    }
  }

  const SCHEMA := "1.0"

  ghost predicate GoesThrough(base: nat, user: UserId, exp: Export, faults: set<nat>) {
    var ids, created := IdsOf(base, user, exp.components), |MonitorsOf(user, exp.components)|;
    && exp.schemaVersion == SCHEMA && Importable(ids, exp.incidents)
    && Quiet(faults, 0, created) && Quiet(faults, created, created + EventsCalls(ids, exp.incidents))
  }

  // From `was` to `now`, exactly the monitors of `comps` have been created.
  ghost predicate Created(was: seq<MonitorRow>, now: seq<MonitorRow>, ids: Ids, user: UserId, comps: seq<Component>) {
    now == was + MonitorsOf(user, comps) && ids == IdsOf(|was|, user, comps)
  }

  lemma CreatedMore(was: seq<MonitorRow>, now: seq<MonitorRow>, ids: Ids, user: UserId, before: seq<Component>,
                    c: Component)
    requires Created(was, now, ids, user, before)
    ensures Created(was, now + MonitorsFrom(user, c), IdsWith(ids, c, |now|), user, before + [c])
  {
    OneMoreComponent(|was|, user, before, c);
    Regroup(was, MonitorsOf(user, before), MonitorsFrom(user, c));
  }

  // What one more component adds.
  lemma OneMoreComponent(base: nat, user: UserId, before: seq<Component>, c: Component)
    ensures MonitorsOf(user, before + [c]) ==
            MonitorsOf(user, before) + if c.url == "" then [] else [MonitorRow(user, c.name, c.url)]
    ensures IdsOf(base, user, before + [c]) ==
            if c.url == "" then IdsOf(base, user, before)
            else IdsOf(base, user, before)[c.id := base + |MonitorsOf(user, before)|]
    ensures MonitorsOf(user, []) == [] && IdsOf(base, user, []) == map[]
  {
    var after := before + [c];
    assert after[..|after| - 1] == before && after[|after| - 1] == c;
  }

  lemma {:induction false} MonitorsUpTo(user: UserId, comps: seq<Component>, k: nat)
    requires k < |comps|
    ensures |MonitorsOf(user, comps[..k])| + |MonitorsFrom(user, comps[k])| <= |MonitorsOf(user, comps)|
    decreases |comps|
  {
    var n := |comps| - 1;
    if k < n {
      MonitorsUpTo(user, comps[..n], k);
      assert comps[..n][..k] == comps[..k];
    }
  }

  // The monitors of an import are new, so no incident in the store is theirs.
  lemma NoneOpenYet(base: nat, user: UserId, comps: seq<Component>, incidents: seq<IncidentRow>)
    requires forall k :: 0 <= k < |incidents| ==> incidents[k].monitor < base
    ensures forall id :: id in IdsOf(base, user, comps) ==> !HasOpenRow(incidents, IdsOf(base, user, comps)[id])
  {
    forall id | id in IdsOf(base, user, comps) ensures !HasOpenRow(incidents, IdsOf(base, user, comps)[id]) {
      FreshIds(base, user, comps, id);
    }
  }

  predicate Mapped(ids: Ids, m: MonitorId) { exists id :: id in ids && ids[id] == m }

  predicate AllMapped(ids: Ids, rows: seq<IncidentRow>) {
    forall k :: 0 <= k < |rows| ==> Mapped(ids, rows[k].monitor)
  }

  lemma {:induction false} RowsAreAttached(ids: Ids, events: seq<Event>)
    ensures AllMapped(ids, IncidentsOf(ids, events))
    ensures Importable(ids, events) ==> OneOpen(IncidentsOf(ids, events))
  {
    if events != [] {
      var n := |events| - 1;
      RowsAreAttached(ids, events[..n]);
      PickedIsMapped(events[n].components, ids);
      var before, rows := IncidentsOf(ids, events[..n]), IncidentsOf(ids, events);
      forall k | 0 <= k < |rows| ensures Mapped(ids, rows[k].monitor) {
        if k < |before| {
          assert rows[k] == before[k] && Mapped(ids, before[k].monitor);
        } else {
          var names := events[n].components;
          var p: nat :| p < |names| && FirstMapped(names, ids, p) && ids[names[p]] == rows[k].monitor;
          assert names[p] in ids;
        }
      }
      if Importable(ids, events) {
        assert Importable(ids, events[..n]) by { assert forall j :: 0 <= j < n ==> events[..n][j] == events[j]; }
        assert events[..n + 1] == events;
        ImportablePrefix(ids, events, n);
      }
    }
  }

  // The new incidents have new monitors, and keep to one open incident each.
  lemma StaysValid(incidents: seq<IncidentRow>, base: nat, user: UserId, comps: seq<Component>, ids: Ids,
                   events: seq<Event>)
    requires OneOpen(incidents) && forall k :: 0 <= k < |incidents| ==> incidents[k].monitor < base
    requires ids == IdsOf(base, user, comps) && Importable(ids, events)
    ensures var all := incidents + IncidentsOf(ids, events);
            OneOpen(all) && forall k :: 0 <= k < |all| ==> all[k].monitor < base + |MonitorsOf(user, comps)|
  {
    var rows := IncidentsOf(ids, events);
    RowsAreAttached(ids, events);
    forall k | 0 <= k < |rows| ensures base <= rows[k].monitor < base + |MonitorsOf(user, comps)| {
      assert Mapped(ids, rows[k].monitor);
      var id :| id in ids && ids[id] == rows[k].monitor;
      FreshIds(base, user, comps, id);
    }
  }
}
