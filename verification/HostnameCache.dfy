/** The hostname map each process keeps in memory: reloaded from the table by reads and stores that
    interleave with each other and with every change of the table. */
module HostnameCache {
  import opened Wrappers
  import opened CustomDomains
  import Text

  type Hosts = map<string, UserId>
  type Tid = nat

  /** `hosts` is what ListActiveHostnames would return now; `cache` belongs to one process, and
      `loaded` holds what its refreshes have read and not yet stored. */
  datatype State = State(hosts: Hosts, cache: Hosts, loaded: map<Tid, Hosts>)

  // Any process may change the table; a refresh whose read fails never stores anything.
  datatype Action = Change(hosts: Hosts) | Read(t: Tid) | Store(t: Tid)

  function Step(s: State, a: Action): State {
    match a
    case Change(h) => s.(hosts := h)
    case Read(t) => s.(loaded := s.loaded[t := s.hosts])
    case Store(t) => if t in s.loaded then s.(cache := s.loaded[t], loaded := s.loaded - {t}) else s
  }

  function Exec(s: State, acts: seq<Action>): State {
    if acts == [] then s else Step(Exec(s, acts[..|acts| - 1]), acts[|acts| - 1])
  }

  function Start(hosts: Hosts): State { State(hosts, map[], map[]) }

  // At some moment up to now the table held exactly `m`.
  ghost predicate Seen(s: State, acts: seq<Action>, m: Hosts) {
    exists i :: 0 <= i <= |acts| && Exec(s, acts[..i]).hosts == m
  }

  lemma SeenLater(s: State, acts: seq<Action>, a: Action, m: Hosts)
    ensures Seen(s, acts, m) ==> Seen(s, acts + [a], m)
    ensures Seen(s, acts, Exec(s, acts).hosts)
  {
    if i :| 0 <= i <= |acts| && Exec(s, acts[..i]).hosts == m {
      assert (acts + [a])[..i] == acts[..i];
    }
    assert acts[..|acts|] == acts;
  }

  /** The cache is the empty map it started with or the set of active hostnames at some past moment,
      never a mixture, whatever refreshes run side by side. */
  lemma {:induction false} CacheIsASnapshot(hosts: Hosts, acts: seq<Action>)
    ensures var s := Exec(Start(hosts), acts);
            && (s.cache == map[] || Seen(Start(hosts), acts, s.cache))
            && (forall t :: t in s.loaded ==> Seen(Start(hosts), acts, s.loaded[t]))
  {
    if acts != [] {
      var n := |acts| - 1;
      CacheIsASnapshot(hosts, acts[..n]);
      var before := Exec(Start(hosts), acts[..n]);
      assert acts == acts[..n] + [acts[n]];
      SeenLater(Start(hosts), acts[..n], acts[n], before.cache);
      SeenLater(Start(hosts), acts[..n], acts[n], before.hosts);
      var s := Exec(Start(hosts), acts);
      forall t | t in s.loaded ensures Seen(Start(hosts), acts, s.loaded[t]) {
        if t in before.loaded { SeenLater(Start(hosts), acts[..n], acts[n], before.loaded[t]); }
      }
      if acts[n].Store? && acts[n].t in before.loaded {
        SeenLater(Start(hosts), acts[..n], acts[n], before.loaded[acts[n].t]);
      }
    }
  }

  // ---- What the cache holds ----

  // Where the refresh under way of `t` read the table.
  function ReadOf(acts: seq<Action>, t: Tid): (k: Option<nat>)
    ensures k.Some? ==> k.value < |acts|
  {
    if acts == [] then None
    else
      var n := |acts| - 1;
      if acts[n] == Read(t) then Some(n) else if acts[n] == Store(t) then None else ReadOf(acts[..n], t)
  }

  // Where the refresh that stored last had read the table.
  function StoredRead(acts: seq<Action>): (k: Option<nat>)
    ensures k.Some? ==> k.value < |acts|
  {
    if acts == [] then None
    else
      var n := |acts| - 1;
      if acts[n].Store? && ReadOf(acts[..n], acts[n].t).Some? then ReadOf(acts[..n], acts[n].t)
      else StoredRead(acts[..n])
  }

  lemma {:induction false} LoadedIsRead(hosts: Hosts, acts: seq<Action>, t: Tid)
    ensures var s := Exec(Start(hosts), acts);
            match ReadOf(acts, t)
            case None => t !in s.loaded
            case Some(k) => t in s.loaded && s.loaded[t] == Exec(Start(hosts), acts[..k]).hosts
  {
    if acts != [] {
      var n := |acts| - 1;
      LoadedIsRead(hosts, acts[..n], t);
      var k := ReadOf(acts, t);
      if k.Some? && k.value < n { assert acts[..n][..k.value] == acts[..k.value]; }
    }
  }

  /** After any run the cache is the map that the refresh which stored last had read, or the empty map if
      none has stored. */
  lemma {:induction false} CacheIsLastStored(hosts: Hosts, acts: seq<Action>)
    ensures Exec(Start(hosts), acts).cache ==
            match StoredRead(acts)
            case None => map[]
            case Some(k) => Exec(Start(hosts), acts[..k]).hosts
  {
    if acts != [] {
      var n := |acts| - 1;
      CacheIsLastStored(hosts, acts[..n]);
      var k := StoredRead(acts);
      if k.Some? { assert acts[..n][..k.value] == acts[..k.value]; }
      if acts[n].Store? { LoadedIsRead(hosts, acts[..n], acts[n].t); }
    }
  }

  /** The cache is current exactly when that refresh read the map that is the current one: it was not
      changed since, or was changed back. */
  lemma {:induction false} CacheIsCurrentExactly(hosts: Hosts, acts: seq<Action>)
    ensures var s := Exec(Start(hosts), acts);
            s.cache == s.hosts <==>
            match StoredRead(acts)
            case None => s.hosts == map[]
            case Some(k) => Exec(Start(hosts), acts[..k]).hosts == s.hosts
  {
    CacheIsLastStored(hosts, acts);
  }

  lemma {:induction false} Unchanged(hosts: Hosts, acts: seq<Action>, k: nat)
    requires k <= |acts| && forall l :: k <= l < |acts| ==> !acts[l].Change?
    ensures Exec(Start(hosts), acts).hosts == Exec(Start(hosts), acts[..k]).hosts
  {
    if k < |acts| {
      var n := |acts| - 1;
      Unchanged(hosts, acts[..n], k);
      assert acts[..n][..k] == acts[..k];
    } else {
      assert acts[..k] == acts;
    }
  }

  /** In particular when no change came after that read. */
  lemma CacheIsCurrent(hosts: Hosts, acts: seq<Action>)
    requires StoredRead(acts).Some? && forall l :: StoredRead(acts).value <= l < |acts| ==> !acts[l].Change?
    ensures Exec(Start(hosts), acts).cache == Exec(Start(hosts), acts).hosts
  {
    CacheIsCurrentExactly(hosts, acts);
    Unchanged(hosts, acts, StoredRead(acts).value);
  }

  /** Two refreshes that overlap can leave the older map in place, with nothing left to correct it. */
  lemma OlderRefreshCanWin(older: Hosts, newer: Hosts)
    requires older != newer
    ensures exists acts ::
              var s := Exec(Start(older), acts);
              s.hosts == newer && s.cache == older && s.loaded == map[]
  {
    var acts := [Read(0), Change(newer), Read(1), Store(1), Store(0)];
    var s0 := Start(older);
    assert acts[..4] == [Read(0), Change(newer), Read(1), Store(1)];
    assert acts[..4][..3] == [Read(0), Change(newer), Read(1)];
    assert acts[..4][..3][..2] == [Read(0), Change(newer)];
    assert acts[..4][..3][..2][..1] == [Read(0)];
    var s1 := Step(s0, Read(0));
    assert Exec(s0, [Read(0)]) == s1 by { assert [Read(0)][..0] == []; }
    var s3 := Step(Step(s1, Change(newer)), Read(1));
    assert Exec(s0, acts[..4][..3]) == s3;
    var s5 := Step(Step(s3, Store(1)), Store(0));
    assert Exec(s0, acts) == s5;
    assert s5.loaded == map[];
  }

  // ---- The service ----

  ghost predicate LowerHosts(t: Table) { forall k :: 0 <= k < |t| ==> Text.Lower(t[k].host) == t[k].host }

  // The lookup done on the rows themselves, without regard to case.
  predicate Serves(r: Row, hostname: string) { r.status.Active? && Text.SameButCase(r.host, hostname) }

  lemma {:induction false} ActiveHostsFound(t: Table, host: string)
    requires forall j, k :: 0 <= j < k < |t| ==> t[j].host != t[k].host
    ensures host in ActiveHosts(t) <==> exists k :: 0 <= k < |t| && t[k].status.Active? && t[k].host == host
    ensures forall k :: 0 <= k < |t| && t[k].status.Active? && t[k].host == host ==> ActiveHosts(t)[host] == t[k].user
  {
    if t != [] {
      var n := |t| - 1;
      ActiveHostsFound(t[..n], host);
      assert forall k :: 0 <= k < n ==> t[..n][k] == t[k];
      if exists k :: 0 <= k < n && t[..n][k].status.Active? && t[..n][k].host == host {
        var k :| 0 <= k < n && t[..n][k].status.Active? && t[..n][k].host == host;
        assert t[k].host == host;
      }
      if t[n].status.Active? && t[n].host == host { assert t[n].host == host; }
    }
  }

  lemma OrderedTail(t: Table, u: Table)
    requires t != [] && Ordered(t) && Ordered(u) && forall d :: d in u ==> d in t[1..]
    ensures Ordered([t[0]] + u)
  {
    forall k | 0 <= k < |u| ensures t[0].id < u[k].id && t[0].host != u[k].host {
      assert u[k] in u;
      var j :| 0 <= j < |t[1..]| && t[1..][j] == u[k];
      assert t[j + 1] == u[k];
    }
  }

  lemma {:induction false} WithoutKeeps(t: Table, id: RowId, user: UserId)
    requires Ordered(t)
    ensures Ordered(Without(t, id, user))
  {
    if t != [] {
      assert forall k :: 0 <= k < |t[1..]| ==> t[1..][k] == t[k + 1];
      WithoutKeeps(t[1..], id, user);
      WithoutAmong(t[1..], id, user);
      OrderedTail(t, Without(t[1..], id, user));
    }
  }

  class DomainRepo {
    var rows: Table
    var ids: nat

    constructor ()
      ensures rows == [] && ids == 0
    {
      rows, ids := [], 0;
    }

    ghost predicate Valid()
      reads this
    {
      Ordered(rows) && LowerHosts(rows) && forall k :: 0 <= k < |rows| ==> rows[k].id < ids
    }
  }

  class CustomDomainService {
    const repo: DomainRepo
    var hostnameCache: Hosts

    constructor (repo: DomainRepo)
      ensures this.repo == repo && hostnameCache == map[]
    {
      this.repo, hostnameCache := repo, map[];
    }

    /** `acceptable` is what the hostname rules say of the trimmed lower-case name. */
    method RequestDomain(user: UserId, hostname: string, acceptable: bool, token: string) returns (r: Option<Row>)
      requires repo.Valid()
      modifies repo
      ensures repo.Valid()
      ensures var host := Text.Lower(Text.TrimSpace(hostname));
              var free := forall k :: 0 <= k < |old(repo.rows)| ==> old(repo.rows)[k].host != host;
              if acceptable && free then
                r == Some(Row(old(repo.ids), user, host, token, Pending)) && repo.rows == old(repo.rows) + [r.value]
              else r == None && repo.rows == old(repo.rows)
      ensures r.Some? ==> Text.SameButCase(r.value.host, Text.TrimSpace(hostname)) &&
                          forall c :: c in r.value.host ==> !('A' <= c <= 'Z')
    {
      var host := Text.Lower(Text.TrimSpace(hostname));
      Text.LowerForgetsCase(Text.TrimSpace(hostname), "");
      if !acceptable { return None; }
      if exists k :: 0 <= k < |repo.rows| && repo.rows[k].host == host { return None; }
      var row := Row(repo.ids, user, host, token, Pending);
      Text.LowerIdempotent(Text.TrimSpace(hostname));
      repo.rows, repo.ids := repo.rows + [row], repo.ids + 1;
      return Some(row);
    }

    // The process and the table as the machine sees them between refreshes.
    ghost function View(): State
      reads this, repo
    {
      State(ActiveHosts(repo.rows), hostnameCache, map[])
    }

    /** Undisturbed, a refresh is a read and a store of the machine, and leaves the cache current; one
        whose read fails is nothing. */
    method RefreshHostnameCache(readOk: bool)
      modifies this`hostnameCache
      ensures View() == if readOk then Step(Step(old(View()), Read(0)), Store(0)) else old(View())
      ensures readOk ==> hostnameCache == ActiveHosts(repo.rows)
    {
      if !readOk { return; }
      var hosts: Hosts := ActiveHosts(repo.rows);
      assert map[0 := hosts] - {0} == map[];
      hostnameCache := hosts;
    }

    method DeleteDomain(id: RowId, user: UserId, deleteOk: bool, readOk: bool) returns (ok: bool)
      modifies this`hostnameCache, repo`rows
      ensures ok == deleteOk
      ensures repo.rows == if deleteOk then Without(old(repo.rows), id, user) else old(repo.rows)
      ensures hostnameCache == if deleteOk && readOk then ActiveHosts(repo.rows) else old(hostnameCache)
      ensures deleteOk ==> forall d :: d in repo.rows <==> d in old(repo.rows) && !(d.id == id && d.user == user)
      ensures old(repo.Valid()) ==> repo.Valid()
    {
      if !deleteOk { return false; }
      WithoutAmong(repo.rows, id, user);
      if repo.Valid() { WithoutKeeps(repo.rows, id, user); }
      assert forall k :: 0 <= k < |Without(repo.rows, id, user)| ==> Without(repo.rows, id, user)[k] in repo.rows;
      repo.rows := Without(repo.rows, id, user);
      RefreshHostnameCache(readOk);
      return true;
    }

    method LookupHostname(hostname: string) returns (user: Option<UserId>)
      ensures user == if Text.Lower(hostname) in hostnameCache then Some(hostnameCache[Text.Lower(hostname)]) else None
      ensures repo.Valid() && hostnameCache == ActiveHosts(repo.rows) ==>
                && (user.Some? <==> exists k :: 0 <= k < |repo.rows| && Serves(repo.rows[k], hostname))
                && (forall k :: 0 <= k < |repo.rows| && Serves(repo.rows[k], hostname) ==>
                      user == Some(repo.rows[k].user))
      ensures forall other :: Text.SameButCase(other, hostname) ==>
                user == if Text.Lower(other) in hostnameCache then Some(hostnameCache[Text.Lower(other)]) else None
    {
      var key := Text.Lower(hostname);
      if repo.Valid() { ActiveHostsFound(repo.rows, key); }
      user := if key in hostnameCache then Some(hostnameCache[key]) else None;
      forall other ensures Text.SameButCase(other, hostname) <==> Text.Lower(other) == key {
        Text.LowerForgetsCase(other, hostname);
      }
      assert repo.Valid() ==> forall k :: 0 <= k < |repo.rows| ==>
          (Serves(repo.rows[k], hostname) <==> repo.rows[k].status.Active? && repo.rows[k].host == key);
    }

    method ValidateDns(d: Row, io: RowIo)
      requires !d.status.Active? && !d.status.Validated?
      modifies repo`rows
      ensures repo.rows == SweepRow(old(repo.rows), d, io)
      ensures var proved := io.probe.Answer? && io.probe.code == 200 && io.probe.body.Some? &&
                            Text.NoEdgeSpace(d.token) &&
                            exists left, right :: Text.Blank(left) && Text.Blank(right) &&
                              io.probe.body.value == left + d.token + right;
              OnlyStatus(old(repo.rows), repo.rows, d.id, if proved then Validated else Failed, io.write)
    {
      TokenProves(io.probe, d.token);
      if io.probe.Unreachable? || io.probe.code != 200 || io.probe.body.None? {
        MarkFailed(d.id, io.write);
        return;
      }
      if Text.TrimSpace(io.probe.body.value) != d.token {
        MarkFailed(d.id, io.write);
        return;
      }
      if io.write { repo.rows := SetStatus(repo.rows, d.id, Validated); }
    }

    method ProvisionCert(d: Row, io: RowIo) returns (activated: bool)
      requires d.status.Validated?
      modifies repo`rows
      ensures repo.rows == SweepRow(old(repo.rows), d, io) && activated == (io.provision && io.write)
      ensures OnlyStatus(old(repo.rows), repo.rows, d.id, if io.provision then Active else Failed, io.write)
    {
      if !io.provision {
        MarkFailed(d.id, io.write);
        return false;
      }
      if !io.write { return false; }
      repo.rows := SetStatus(repo.rows, d.id, Active);
      return true;
    }

    method MarkFailed(id: RowId, ok: bool)
      modifies repo`rows
      ensures repo.rows == if ok then SetStatus(old(repo.rows), id, Failed) else old(repo.rows)
      ensures OnlyStatus(old(repo.rows), repo.rows, id, Failed, ok)
    {
      if ok { repo.rows := SetStatus(repo.rows, id, Failed); }
    }

    /** One sweep, alone: each listed row moves as its snapshot and the outside world say, and the
        cache is reloaded when a row became active. */
    method RunValidationOnce(listOk: bool, ios: map<RowId, RowIo>, readOk: bool)
      modifies this`hostnameCache, repo`rows
      ensures repo.rows == if listOk then Sweep(old(repo.rows), ios) else old(repo.rows)
      ensures hostnameCache == if listOk && readOk && ActivatesAny(ListPending(old(repo.rows), BATCH), ios)
                               then ActiveHosts(repo.rows) else old(hostnameCache)
      ensures !listOk ==> repo.rows == old(repo.rows)
      ensures listOk && Ordered(old(repo.rows)) ==>
                |repo.rows| == |old(repo.rows)| && forall k :: 0 <= k < |repo.rows| ==>
                  var r := old(repo.rows)[k];
                  if !r.status.Active? && Open(old(repo.rows)[..k]) < 100 && r.id in ios
                  then MovesTo(r, repo.rows[k], ios[r.id]) else repo.rows[k] == r
    {
      if !listOk { return; }
      SweepMoves(repo.rows, ios);
      var rows := ListPending(repo.rows, BATCH);
      ghost var before := repo.rows;
      PendingAre(before, BATCH);
      var activatedAny := false;
      assert rows[..0] == [];
      for k := 0 to |rows|
        invariant repo.rows == SweepRows(before, rows[..k], ios) && hostnameCache == old(hostnameCache)
        invariant activatedAny == ActivatesAny(rows[..k], ios)
      {
        var d := rows[k];
        assert d in rows && rows[..k + 1][..k] == rows[..k];
        match d.status {
          case Pending | Failed => ValidateDns(d, IoOf(ios, d.id));
          case Validated =>
            var activated := ProvisionCert(d, IoOf(ios, d.id));
            if activated { activatedAny := true; }
        }
      }
      assert rows[..|rows|] == rows;
      if activatedAny { RefreshHostnameCache(readOk); }
    }
  }

  function ActivatesAny(rows: seq<Row>, ios: map<RowId, RowIo>): (any: bool)
    ensures any <==> exists k :: 0 <= k < |rows| && rows[k].status.Validated? && rows[k].id in ios &&
                                 ios[rows[k].id].provision && ios[rows[k].id].write
  {
    if rows == [] then false
    else
      var n := |rows| - 1;
      var io := IoOf(ios, rows[n].id);
      assert forall k :: 0 <= k < n ==> rows[..n][k] == rows[k];
      ActivatesAny(rows[..n], ios) || (rows[n].status.Validated? && io.provision && io.write)
  }

  // From `before` to `after`, the rows of that id (when the write goes through) have this status.
  predicate OnlyStatus(before: Table, after: Table, id: RowId, s: Status, ok: bool) {
    |after| == |before| && forall k :: 0 <= k < |after| ==>
      after[k] == if ok && before[k].id == id then before[k].(status := s) else before[k]
  }

  lemma SweepMoves(t: Table, ios: map<RowId, RowIo>)
    ensures Ordered(t) ==>
              |Sweep(t, ios)| == |t| && forall k :: 0 <= k < |t| ==>
                if !t[k].status.Active? && Open(t[..k]) < BATCH && t[k].id in ios
                then MovesTo(t[k], Sweep(t, ios)[k], ios[t[k].id]) else Sweep(t, ios)[k] == t[k]
  {
    if Ordered(t) {
      SweepRowsLength(t, ListPending(t, BATCH), ios);
      forall k | 0 <= k < |t|
        ensures if !t[k].status.Active? && Open(t[..k]) < BATCH && t[k].id in ios
                then MovesTo(t[k], Sweep(t, ios)[k], ios[t[k].id]) else Sweep(t, ios)[k] == t[k]
      {
        SweepAt(t, ios, k);
      }
    }
  }
}
