/** The life of custom domains: the rows, one validation sweep over a snapshot of them, and the
    hostname map that routing reads. */
module CustomDomains {
  import opened Wrappers
  import Text

  type RowId = nat
  type UserId = nat

  datatype Status = Pending | Validated | Active | Failed

  datatype Row = Row(id: RowId, user: UserId, host: string, token: string, status: Status)

  // The table in the order of creation, which is the order of the ids.
  type Table = seq<Row>

  ghost predicate Ordered(t: Table) {
    forall j, k :: 0 <= j < k < |t| ==> t[j].id < t[k].id && t[j].host != t[k].host
  }

  const BATCH := 100

  // ListPending: the oldest rows that are not active, at most `limit` of them.
  function ListPending(t: Table, limit: nat): seq<Row> {
    if t == [] || limit == 0 then []
    else if t[0].status.Active? then ListPending(t[1..], limit)
    else [t[0]] + ListPending(t[1..], limit - 1)
  }

  // UpdateStatus: a row that is gone is left gone.
  function SetStatus(t: Table, id: RowId, s: Status): Table {
    seq(|t|, k requires 0 <= k < |t| => if t[k].id == id then t[k].(status := s) else t[k])
  }

  function Without(t: Table, id: RowId, user: UserId): Table {
    if t == [] then []
    else (if t[0].id == id && t[0].user == user then [] else [t[0]]) + Without(t[1..], id, user)
  }

  lemma {:induction false} WithoutAmong(t: Table, id: RowId, user: UserId)
    ensures forall d :: d in Without(t, id, user) <==> d in t && !(d.id == id && d.user == user)
  {
    if t != [] { WithoutAmong(t[1..], id, user); }
  }

  function ActiveHosts(t: Table): map<string, UserId> {
    if t == [] then map[]
    else
      var rest := ActiveHosts(t[..|t| - 1]);
      var r := t[|t| - 1];
      if r.status.Active? then rest[r.host := r.user] else rest
  }

  // ---- One row of one sweep ----

  /** What the HTTP probe brings back: None for the body when it cannot be read. */
  datatype Response = Unreachable | Answer(code: int, body: Option<string>)

  /** How the calls about one row go: the probe, the certificate, the status write. */
  datatype RowIo = RowIo(probe: Response, provision: bool, write: bool)

  predicate ProvesOwnership(r: Response, token: string) {
    r.Answer? && r.code == 200 && r.body.Some? && Text.TrimSpace(r.body.value) == token
  }

  function Verdict(d: Row, io: RowIo): Status {
    if d.status.Validated? then (if io.provision then Active else Failed)
    else if ProvesOwnership(io.probe, d.token) then Validated else Failed
  }

  function IoOf(ios: map<RowId, RowIo>, id: RowId): RowIo {
    if id in ios then ios[id] else RowIo(Unreachable, false, false)
  }

  function SweepRow(t: Table, d: Row, io: RowIo): Table {
    if !d.status.Active? && io.write then SetStatus(t, d.id, Verdict(d, io)) else t
  }

  function SweepRows(t: Table, todo: seq<Row>, ios: map<RowId, RowIo>): Table {
    if todo == [] then t
    else
      var n := |todo| - 1;
      SweepRow(SweepRows(t, todo[..n], ios), todo[n], IoOf(ios, todo[n].id))
  }

  function Sweep(t: Table, ios: map<RowId, RowIo>): Table { SweepRows(t, ListPending(t, BATCH), ios) }

  // ---- A sweep, row by row of the table ----

  function Moved(r: Row, ios: map<RowId, RowIo>): Row {
    var io := IoOf(ios, r.id);
    if !r.status.Active? && io.write then r.(status := Verdict(r, io)) else r
  }

  // How many rows of `t` are not active.
  function Open(t: Table): nat {
    if t == [] then 0 else (if t[0].status.Active? then 0 else 1) + Open(t[1..])
  }

  lemma {:induction false} OpenConcat(a: Table, b: Table)
    ensures Open(a + b) == Open(a) + Open(b)
  {
    if a == [] {
      assert a + b == b;
    } else {
      assert (a + b)[1..] == a[1..] + b;
      OpenConcat(a[1..], b);
    }
  }

  lemma {:induction false} PendingAre(t: Table, limit: nat)
    ensures var p := ListPending(t, limit);
            && (forall d :: d in p ==> d in t && !d.status.Active?)
            && (forall k :: 0 <= k < |t| && !t[k].status.Active? && Open(t[..k]) < limit ==> t[k] in p)
            && (Ordered(t) ==> forall k :: 0 <= k < |t| && t[k] in p ==> Open(t[..k]) < limit)
            && |p| <= limit
  {
    if t != [] && limit > 0 {
      var rest := if t[0].status.Active? then limit else limit - 1;
      PendingAre(t[1..], rest);
      forall k | 0 < k < |t| ensures Open(t[..k]) == Open(t[1..][..k - 1]) + if t[0].status.Active? then 0 else 1 {
        assert t[..k][1..] == t[1..][..k - 1];
      }
      assert forall k :: 0 < k < |t| ==> t[k] == t[1..][k - 1];
      assert forall k :: 0 <= k < |t[1..]| ==> t[1..][k] == t[k + 1];
    }
  }

  /** A row is reached by a sweep exactly when it is not active and fewer than a batch of older rows
      are not. */
  lemma {:induction false} ReachedExactly(t: Table, k: nat)
    requires Ordered(t) && k < |t|
    ensures t[k] in ListPending(t, BATCH) <==> !t[k].status.Active? && Open(t[..k]) < BATCH
  {
    PendingAre(t, BATCH);
  }

  // Sweeping distinct rows of the snapshot moves each of them once, as the snapshot shows it.
  lemma {:induction false} SweepRowsAt(t: Table, todo: seq<Row>, ios: map<RowId, RowIo>, k: nat)
    requires Ordered(t) && k < |t|
    requires forall d :: d in todo ==> d in t && !d.status.Active?
    ensures |SweepRows(t, todo, ios)| == |t|
    ensures SweepRows(t, todo, ios)[k] == if t[k] in todo then Moved(t[k], ios) else t[k]
  {
    if todo != [] {
      var n := |todo| - 1;
      var d := todo[n];
      SweepRowsAt(t, todo[..n], ios, k);
      assert todo == todo[..n] + [d];
      var j :| 0 <= j < |t| && t[j] == d;
      if t[k].id == d.id { assert j == k; }
    }
  }

  lemma {:induction false} SweepRowsLength(t: Table, todo: seq<Row>, ios: map<RowId, RowIo>)
    ensures |SweepRows(t, todo, ios)| == |t|
  {
    if todo != [] { SweepRowsLength(t, todo[..|todo| - 1], ios); }
  }

  // What the probe answers is the token with nothing but white space around it.
  ghost predicate BringsToken(r: Response, token: string) {
    r.Answer? && r.code == 200 && r.body.Some? && Text.NoEdgeSpace(token) && Text.Pads(r.body.value, token)
  }

  lemma TokenProves(r: Response, token: string)
    ensures ProvesOwnership(r, token) <==> BringsToken(r, token)
  {
    if r.Answer? && r.body.Some? { Text.TrimIs(r.body.value, token); }
  }

  // From `r` to `r'` as the calls about it went: nothing but the status changes, and that only if it is
  // written; a validated domain becomes active with its certificate, another one validated by its token.
  ghost predicate MovesTo(r: Row, r': Row, io: RowIo) {
    && r' == Row(r.id, r.user, r.host, r.token, r'.status)
    && (r.status.Active? || !io.write ==> r'.status == r.status)
    && (r.status.Validated? && io.write ==> r'.status == if io.provision then Active else Failed)
    && ((r.status.Pending? || r.status.Failed?) && io.write ==>
          r'.status == if BringsToken(io.probe, r.token) then Validated else Failed)
  }

  /** One sweep moves every row it reaches by one step and leaves the others alone. */
  lemma SweepAt(t: Table, ios: map<RowId, RowIo>, k: nat)
    requires Ordered(t) && k < |t|
    ensures |Sweep(t, ios)| == |t|
    ensures Sweep(t, ios)[k] ==
            if !t[k].status.Active? && Open(t[..k]) < BATCH then Moved(t[k], ios) else t[k]
    ensures if !t[k].status.Active? && Open(t[..k]) < BATCH && t[k].id in ios
            then MovesTo(t[k], Sweep(t, ios)[k], ios[t[k].id]) else Sweep(t, ios)[k] == t[k]
  {
    PendingAre(t, BATCH);
    SweepRowsAt(t, ListPending(t, BATCH), ios, k);
    ReachedExactly(t, k);
    if t[k].id in ios { TokenProves(ios[t[k].id].probe, t[k].token); }
  }

  lemma SweepKeepsOrder(t: Table, ios: map<RowId, RowIo>)
    requires Ordered(t)
    ensures Ordered(Sweep(t, ios))
  {
    forall k | 0 <= k < |t|
      ensures |Sweep(t, ios)| == |t| && Sweep(t, ios)[k] == t[k].(status := Sweep(t, ios)[k].status)
    {
      SweepAt(t, ios, k);
    }
    SweepRowsLength(t, ListPending(t, BATCH), ios);
  }

  // ---- Progress ----

  ghost predicate AllGood(t: Table, ios: map<RowId, RowIo>) {
    forall k :: 0 <= k < |t| ==>
      t[k].id in ios && ios[t[k].id].write && ios[t[k].id].provision && ProvesOwnership(ios[t[k].id].probe, t[k].token)
  }

  function Rank(s: Status): nat { match s case Active => 0 case Validated => 1 case _ => 2 }

  function RankSum(t: Table): nat { if t == [] then 0 else Rank(t[0].status) + RankSum(t[1..]) }

  function Min(a: int, b: int): int { if a < b then a else b }

  // `u` is `t` with each row moved down one rank where `room` of them are left to move.
  ghost predicate OneDown(t: Table, u: Table, room: nat) {
    |u| == |t| && forall k :: 0 <= k < |t| ==>
      Rank(u[k].status) == Rank(t[k].status) - if !t[k].status.Active? && Open(t[..k]) < room then 1 else 0
  }

  lemma {:induction false} OneDownSum(t: Table, u: Table, room: nat)
    requires OneDown(t, u, room)
    ensures RankSum(u) == RankSum(t) - Min(room, Open(t))
  {
    if t != [] {
      assert t[..0] == [];
      var used := if t[0].status.Active? then 0 else 1;
      if room >= used {
        forall k | 0 <= k < |t[1..]| ensures Open(t[..k + 1]) == Open(t[1..][..k]) + used {
          assert t[..k + 1][1..] == t[1..][..k];
        }
        OneDownSum(t[1..], u[1..], room - used);
      } else {
        forall k | 0 <= k < |t[1..]| ensures Rank(u[1..][k].status) == Rank(t[1..][k].status) {
        }
        OneDownSum(t[1..], u[1..], 0);
      }
    }
  }

  /** With every call succeeding, each sweep lowers the rank sum by one for every row it reaches:
      by a whole batch, or by all rows that are not active if these are fewer. */
  lemma GoodSweepLowersRank(t: Table, ios: map<RowId, RowIo>)
    requires Ordered(t) && AllGood(t, ios)
    ensures RankSum(Sweep(t, ios)) == RankSum(t) - Min(BATCH, Open(t))
  {
    SweepRowsLength(t, ListPending(t, BATCH), ios);
    forall k | 0 <= k < |t|
      ensures Rank(Sweep(t, ios)[k].status) ==
              Rank(t[k].status) - if !t[k].status.Active? && Open(t[..k]) < BATCH then 1 else 0
    {
      SweepAt(t, ios, k);
    }
    OneDownSum(t, Sweep(t, ios), BATCH);
  }

  lemma GoodSweepKeepsGood(t: Table, ios: map<RowId, RowIo>, ios': map<RowId, RowIo>)
    requires Ordered(t) && AllGood(t, ios')
    ensures AllGood(Sweep(t, ios), ios')
  {
    forall k | 0 <= k < |Sweep(t, ios)|
      ensures k < |t| && Sweep(t, ios)[k].id == t[k].id && Sweep(t, ios)[k].token == t[k].token
    {
      SweepRowsLength(t, ListPending(t, BATCH), ios);
      SweepAt(t, ios, k);
    }
  }

  predicate AllActive(t: Table) { forall k :: 0 <= k < |t| ==> t[k].status.Active? }

  lemma {:induction false} NoOpenAllActive(t: Table)
    ensures Open(t) == 0 <==> AllActive(t)
  {
    if t != [] {
      NoOpenAllActive(t[1..]);
      assert forall k :: 1 <= k < |t| ==> t[k] == t[1..][k - 1];
      assert AllActive(t) ==> forall k :: 0 <= k < |t[1..]| ==> t[1..][k] == t[k + 1];
    }
  }

  lemma {:induction false} OpenAtMostLength(t: Table)
    ensures Open(t) <= |t|
  {
    if t != [] { OpenAtMostLength(t[1..]); }
  }

  // A batch of rows behind rows that are all active is active after two good sweeps.
  lemma TwoSweepsActivateNextBatch(t: Table, ios: map<RowId, RowIo>, ios': map<RowId, RowIo>, k: nat, n: nat)
    requires Ordered(t) && AllGood(t, ios) && AllGood(t, ios')
    requires n <= k < |t| && k < n + BATCH && AllActive(t[..n])
    ensures var t' := Sweep(Sweep(t, ios), ios');
            |t'| == |t| && t'[k].status.Active?
  {
    var t1 := Sweep(t, ios);
    SweepKeepsOrder(t, ios);
    GoodSweepKeepsGood(t, ios, ios');
    SweepAt(t, ios, k);
    OpenWithin(t, n, k);
    forall j | 0 <= j < n ensures t1[..n][j].status.Active? {
      assert t[..n][j].status.Active?;
      SweepAt(t, ios, j);
    }
    OpenWithin(t1, n, k);
    SweepAt(t1, ios', k);
  }

  lemma OpenWithin(t: Table, n: nat, k: nat)
    requires n <= k <= |t| && AllActive(t[..n])
    ensures Open(t[..k]) <= k - n
  {
    assert t[..k] == t[..n] + t[n..k];
    OpenConcat(t[..n], t[n..k]);
    NoOpenAllActive(t[..n]);
    OpenAtMostLength(t[n..k]);
  }

  function Sweeps(t: Table, ios: seq<map<RowId, RowIo>>): Table {
    if ios == [] then t else Sweep(Sweeps(t, ios[..|ios| - 1]), ios[|ios| - 1])
  }

  lemma {:induction false} SweepsKeep(t: Table, ios: seq<map<RowId, RowIo>>, io: map<RowId, RowIo>)
    requires Ordered(t)
    ensures Ordered(Sweeps(t, ios)) && |Sweeps(t, ios)| == |t|
    ensures AllGood(t, io) ==> AllGood(Sweeps(t, ios), io)
  {
    if ios != [] {
      SweepsKeep(t, ios[..|ios| - 1], io);
      var u := Sweeps(t, ios[..|ios| - 1]);
      SweepKeepsOrder(u, ios[|ios| - 1]);
      if AllGood(t, io) { GoodSweepKeepsGood(u, ios[|ios| - 1], io); }
      SweepRowsLength(u, ListPending(u, BATCH), ios[|ios| - 1]);
    }
  }

  /** With every call succeeding, 2 n sweeps activate the n oldest batches of rows, whatever state
      these rows were in. Two sweeps do for a table of up to one batch. */
  lemma {:induction false} SweepsActivateOldest(t: Table, ios: seq<map<RowId, RowIo>>, n: nat, k: nat)
    requires Ordered(t) && |ios| == 2 * n && forall i :: 0 <= i < |ios| ==> AllGood(t, ios[i])
    requires k < |t| && k < n * BATCH
    ensures |Sweeps(t, ios)| == |t| && Sweeps(t, ios)[k].status.Active?
  {
    var m := 2 * (n - 1);
    var u := Sweeps(t, ios[..m]);
    assert ios[..m + 1][..m] == ios[..m] && ios[..|ios| - 1] == ios[..m + 1];
    assert Sweeps(t, ios) == Sweep(Sweep(u, ios[m]), ios[m + 1]);
    SweepsKeep(t, ios[..m], ios[m]);
    SweepsKeep(t, ios[..m], ios[m + 1]);
    var done := Min((n - 1) * BATCH, |t|);
    forall j | 0 <= j < done ensures u[..done][j].status.Active? {
      SweepsActivateOldest(t, ios[..m], n - 1, j);
    }
    if k < done {
      assert u[..done][k].status.Active?;
      SweepKeepsOrder(u, ios[m]);
      SweepAt(u, ios[m], k);
      SweepAt(Sweep(u, ios[m]), ios[m + 1], k);
    } else {
      TwoSweepsActivateNextBatch(u, ios[m], ios[m + 1], k, done);
    }
  }

  /** A batch of older rows that never get anywhere keeps a newer row where it is, for ever. */
  lemma {:induction false} StarvedBehindFailures(t: Table, ios: seq<map<RowId, RowIo>>, k: nat)
    requires Ordered(t) && k < |t| && Open(t[..k]) >= BATCH
    requires forall i, j :: 0 <= i < |ios| && 0 <= j < k && !t[j].status.Active? ==>
               t[j].id in ios[i] && !ios[i][t[j].id].provision
    ensures |Sweeps(t, ios)| == |t| && Sweeps(t, ios)[k] == t[k]
  {
    SweepsKeep(t, ios, map[]);
    if ios != [] {
      var n := |ios| - 1;
      StarvedBehindFailures(t, ios[..n], k);
      var u := Sweeps(t, ios[..n]);
      SweepsKeep(t, ios[..n], map[]);
      StillOpen(t, ios[..n], k);
      SweepAt(u, ios[n], k);
    }
  }

  lemma {:induction false} StillOpen(t: Table, ios: seq<map<RowId, RowIo>>, k: nat)
    requires Ordered(t) && k <= |t|
    requires forall i, j :: 0 <= i < |ios| && 0 <= j < k && !t[j].status.Active? ==>
               t[j].id in ios[i] && !ios[i][t[j].id].provision
    ensures |Sweeps(t, ios)| == |t| && Open(Sweeps(t, ios)[..k]) == Open(t[..k])
    ensures forall j :: 0 <= j < k ==>
              Sweeps(t, ios)[j].id == t[j].id && (Sweeps(t, ios)[j].status.Active? <==> t[j].status.Active?)
  {
    SweepsKeep(t, ios, map[]);
    if ios != [] {
      var n := |ios| - 1;
      StillOpen(t, ios[..n], k);
      var u := Sweeps(t, ios[..n]);
      SweepsKeep(t, ios[..n], map[]);
      forall j | 0 <= j < k
        ensures Sweep(u, ios[n])[j].id == t[j].id && (Sweep(u, ios[n])[j].status.Active? <==> t[j].status.Active?)
      {
        SweepAt(u, ios[n], j);
      }
    }
    SameOpen(t[..k], Sweeps(t, ios)[..k]);
  }

  lemma {:induction false} SameOpen(a: Table, b: Table)
    requires |a| == |b| && forall j :: 0 <= j < |a| ==> (a[j].status.Active? <==> b[j].status.Active?)
    ensures Open(a) == Open(b)
  {
    if a != [] { SameOpen(a[1..], b[1..]); }
  }
}
