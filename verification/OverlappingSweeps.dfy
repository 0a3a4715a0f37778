/** Custom domains under sweeps that may overlap: each sweep works through the snapshot it took at
    its start, while users request and delete domains and other sweeps write the same rows. */
module OverlappingSweeps {
  import opened Wrappers
  import opened CustomDomains

  type SweepId = nat

  /** A write a sweep has decided on and not yet made. */
  datatype Write = Write(id: RowId, status: Status)

  /** One sweep: the rest of its snapshot, its first row being in hand, and the write it is to make
      about that row. */
  datatype Worker = Worker(todo: seq<Row>, next: Option<Write>)

  /** What happened, in order: a probe brought back the token of a row, a row was written Validated,
      a certificate was provisioned for a row. */
  datatype Mark = Proved(id: RowId) | Wrote(id: RowId) | Issued(id: RowId)

  datatype State = State(rows: Table, ids: nat, workers: map<SweepId, Worker>, log: seq<Mark>)

  datatype Action =
    | Request(user: UserId, host: string, token: string)
    | Delete(id: RowId, user: UserId)
    | Begin(w: SweepId)
    | Call(w: SweepId, io: RowIo)    // the probe or the provisioning for the row in hand
    | Commit(w: SweepId, ok: bool)   // the status write; `ok`: it takes effect, whatever the sweep hears
    | Abandon(w: SweepId)            // the process of the sweep dies
    | Other                          // something that does not concern the domains

  predicate Running(x: Worker) { x.todo != [] }

  predicate HostTaken(t: Table, host: string) { exists k :: 0 <= k < |t| && t[k].host == host }

  function Put(s: State, w: SweepId, x: Worker): State { s.(workers := s.workers[w := x]) }

  function MarksOf(d: Row, io: RowIo): seq<Mark> {
    if d.status.Validated? then (if io.provision then [Issued(d.id)] else [])
    else if ProvesOwnership(io.probe, d.token) then [Proved(d.id)] else []
  }

  predicate HasId(t: Table, id: RowId) { exists k :: 0 <= k < |t| && t[k].id == id }

  // A step that is not possible in `s` leaves `s` unchanged.
  function Step(s: State, a: Action): State {
    match a
    case Request(user, host, token) =>
      if HostTaken(s.rows, host) then s
      else s.(rows := s.rows + [Row(s.ids, user, host, token, Pending)], ids := s.ids + 1)
    case Delete(id, user) => s.(rows := Without(s.rows, id, user))
    case Begin(w) =>
      if w in s.workers && Running(s.workers[w]) then s
      else Put(s, w, Worker(ListPending(s.rows, BATCH), None))
    case Call(w, io) =>
      if w in s.workers && Running(s.workers[w]) && s.workers[w].next.None? then
        var d := s.workers[w].todo[0];
        Put(s.(log := s.log + MarksOf(d, io)), w, s.workers[w].(next := Some(Write(d.id, Verdict(d, io)))))
      else s
    case Commit(w, ok) =>
      if w in s.workers && Running(s.workers[w]) && s.workers[w].next.Some? then
        var x := s.workers[w].next.value;
        var s' := Put(s, w, Worker(s.workers[w].todo[1..], None));
        if !ok then s'
        else s'.(rows := SetStatus(s.rows, x.id, x.status),
                 log := if x.status.Validated? && HasId(s.rows, x.id) then s.log + [Wrote(x.id)] else s.log)
      else s
    case Abandon(w) => Put(s, w, Worker([], None))
    case Other => s
  }

  function Exec(s: State, acts: seq<Action>): State {
    if acts == [] then s else Step(Exec(s, acts[..|acts| - 1]), acts[|acts| - 1])
  }

  const EMPTY := State([], 0, map[], [])

  // ---- What stands behind a status ----

  predicate Proven(log: seq<Mark>, id: RowId) { exists i :: 0 <= i < |log| && log[i] == Proved(id) }

  predicate Vetted(log: seq<Mark>, id: RowId) {
    exists i, j :: 0 <= i < j < |log| && log[i] == Proved(id) && log[j] == Wrote(id)
  }

  predicate Certified(log: seq<Mark>, id: RowId) {
    exists i, j, k :: 0 <= i < j < k < |log| && log[i] == Proved(id) && log[j] == Wrote(id) && log[k] == Issued(id)
  }

  lemma MarksOnlyGrow(log: seq<Mark>, more: seq<Mark>, id: RowId)
    ensures Proven(log, id) ==> Proven(log + more, id)
    ensures Vetted(log, id) ==> Vetted(log + more, id)
    ensures Certified(log, id) ==> Certified(log + more, id)
    ensures Proven(log, id) ==> Vetted(log + [Wrote(id)], id)
    ensures Vetted(log, id) ==> Certified(log + [Issued(id)], id)
    ensures Proven(log + [Proved(id)], id)
  {
    if i :| 0 <= i < |log| && log[i] == Proved(id) {
      assert (log + more)[i] == Proved(id);
      assert (log + [Wrote(id)])[i] == Proved(id) && (log + [Wrote(id)])[|log|] == Wrote(id);
    }
    if i, j :| 0 <= i < j < |log| && log[i] == Proved(id) && log[j] == Wrote(id) {
      assert (log + more)[i] == Proved(id) && (log + more)[j] == Wrote(id);
      var l := log + [Issued(id)];
      assert l[i] == Proved(id) && l[j] == Wrote(id) && l[|log|] == Issued(id);
    }
    if i, j, k :| 0 <= i < j < k < |log| && log[i] == Proved(id) && log[j] == Wrote(id) && log[k] == Issued(id) {
      assert (log + more)[i] == Proved(id) && (log + more)[j] == Wrote(id) && (log + more)[k] == Issued(id);
    }
    assert (log + [Proved(id)])[|log|] == Proved(id);
  }

  // What a status, on a row or in a snapshot, has behind it.
  predicate Backed(log: seq<Mark>, id: RowId, s: Status) {
    (s.Validated? ==> Vetted(log, id)) && (s.Active? ==> Certified(log, id))
  }

  // What a decided write has behind it; the write itself is the mark still missing.
  predicate Decided(log: seq<Mark>, x: Write) {
    (x.status.Validated? ==> Proven(log, x.id)) && (x.status.Active? ==> Certified(log, x.id))
  }

  ghost predicate RowsBacked(s: State) {
    forall k :: 0 <= k < |s.rows| ==> Backed(s.log, s.rows[k].id, s.rows[k].status)
  }

  ghost predicate WorkerBacked(log: seq<Mark>, x: Worker) {
    && (forall d :: d in x.todo ==> Backed(log, d.id, d.status))
    && (x.next.Some? ==> Decided(log, x.next.value))
  }

  ghost predicate Inv(s: State) {
    RowsBacked(s) && forall w :: w in s.workers ==> WorkerBacked(s.log, s.workers[w])
  }

  lemma BackedLater(s: State, more: seq<Mark>)
    requires Inv(s)
    ensures Inv(s.(log := s.log + more))
  {
    var t := s.(log := s.log + more);
    forall k | 0 <= k < |s.rows| ensures Backed(t.log, s.rows[k].id, s.rows[k].status) {
      MarksOnlyGrow(s.log, more, s.rows[k].id);
    }
    forall w | w in s.workers ensures WorkerBacked(t.log, s.workers[w]) {
      var x := s.workers[w];
      forall d | d in x.todo ensures Backed(t.log, d.id, d.status) { MarksOnlyGrow(s.log, more, d.id); }
      if x.next.Some? { MarksOnlyGrow(s.log, more, x.next.value.id); }
    }
  }

  lemma CallKeepsInv(s: State, w: SweepId, io: RowIo)
    requires Inv(s)
    ensures Inv(Step(s, Call(w, io)))
  {
    if w in s.workers && Running(s.workers[w]) && s.workers[w].next.None? {
      var d := s.workers[w].todo[0];
      BackedLater(s, MarksOf(d, io));
      MarksOnlyGrow(s.log, [], d.id);
      assert Decided(s.log + MarksOf(d, io), Write(d.id, Verdict(d, io)));
    }
  }

  lemma CommitKeepsInv(s: State, w: SweepId, ok: bool)
    requires Inv(s)
    ensures Inv(Step(s, Commit(w, ok)))
  {
    if w in s.workers && Running(s.workers[w]) && s.workers[w].next.Some? {
      var x := s.workers[w].next.value;
      var s' := Step(s, Commit(w, ok));
      var more := if ok && x.status.Validated? && HasId(s.rows, x.id) then [Wrote(x.id)] else [];
      assert s'.log == s.log + more;
      BackedLater(s, more);
      forall k | 0 <= k < |s'.rows| ensures Backed(s'.log, s'.rows[k].id, s'.rows[k].status) {
        MarksOnlyGrow(s.log, more, s.rows[k].id);
        if ok && s.rows[k].id == x.id { assert HasId(s.rows, x.id); }
      }
    }
  }

  lemma StepKeepsInv(s: State, a: Action)
    requires Inv(s)
    ensures Inv(Step(s, a))
  {
    match a {
      case Call(w, io) => CallKeepsInv(s, w, io);
      case Commit(w, ok) => CommitKeepsInv(s, w, ok);
      case Begin(w) => PendingAre(s.rows, BATCH);
      case Delete(id, user) =>
        WithoutAmong(s.rows, id, user);
        var t := Without(s.rows, id, user);
        forall k | 0 <= k < |t| ensures t[k] in s.rows { assert t[k] in t; }
      case _ =>
    }
  }

  lemma {:induction false} ExecKeepsInv(acts: seq<Action>)
    ensures Inv(Exec(EMPTY, acts))
  {
    if acts != [] {
      ExecKeepsInv(acts[..|acts| - 1]);
      StepKeepsInv(Exec(EMPTY, acts[..|acts| - 1]), acts[|acts| - 1]);
    }
  }

  // ---- Undisturbed, a sweep is the sweep of `CustomDomains` ----

  // The calls about the first `k` rows of `todo`, each answered as `ios` says.
  function CallsFor(w: SweepId, todo: seq<Row>, ios: map<RowId, RowIo>, k: nat): seq<Action>
    requires k <= |todo|
  {
    if k == 0 then []
    else
      var io := IoOf(ios, todo[k - 1].id);
      CallsFor(w, todo, ios, k - 1) + [Call(w, io)] + [Commit(w, io.write)]
  }

  lemma ExecOne(s: State, acts: seq<Action>, a: Action)
    ensures Exec(s, acts + [a]) == Step(Exec(s, acts), a)
  {
    assert (acts + [a])[..|acts|] == acts;
  }

  lemma OneRowAlone(s: State, w: SweepId, todo: seq<Row>, io: RowIo)
    requires w in s.workers && s.workers[w] == Worker(todo, None) && todo != [] && !todo[0].status.Active?
    ensures var s' := Step(Step(s, Call(w, io)), Commit(w, io.write));
            && s'.rows == SweepRow(s.rows, todo[0], io) && s'.ids == s.ids
            && w in s'.workers && s'.workers[w] == Worker(todo[1..], None)
  {
    assert Step(s, Call(w, io)).workers[w] == Worker(todo, Some(Write(todo[0].id, Verdict(todo[0], io))));
  }

  lemma {:induction false} SweepUpTo(s: State, w: SweepId, todo: seq<Row>, ios: map<RowId, RowIo>, k: nat)
    requires w in s.workers && s.workers[w] == Worker(todo, None) && k <= |todo|
    requires forall d :: d in todo ==> !d.status.Active?
    ensures var s' := Exec(s, CallsFor(w, todo, ios, k));
            && s'.rows == SweepRows(s.rows, todo[..k], ios) && s'.ids == s.ids
            && w in s'.workers && s'.workers[w] == Worker(todo[k..], None)
  {
    if k > 0 {
      var d := todo[k - 1];
      var io, before := IoOf(ios, d.id), CallsFor(w, todo, ios, k - 1);
      SweepUpTo(s, w, todo, ios, k - 1);
      ExecOne(s, before, Call(w, io));
      ExecOne(s, before + [Call(w, io)], Commit(w, io.write));
      assert todo[k - 1..][0] == d && d in todo;
      OneRowAlone(Exec(s, before), w, todo[k - 1..], io);
      assert todo[k - 1..][1..] == todo[k..] && todo[..k][..k - 1] == todo[..k - 1];
    }
  }

  /** A sweep that nothing disturbs, from its listing to its last write, leaves the rows that the sweep of
      the service leaves. */
  lemma AloneIsSweep(s: State, w: SweepId, ios: map<RowId, RowIo>)
    requires w !in s.workers || !Running(s.workers[w])
    ensures var todo := ListPending(s.rows, BATCH);
            var s' := Exec(Step(s, Begin(w)), CallsFor(w, todo, ios, |todo|));
            s'.rows == Sweep(s.rows, ios) && w in s'.workers && !Running(s'.workers[w])
  {
    var todo := ListPending(s.rows, BATCH);
    PendingAre(s.rows, BATCH);
    SweepUpTo(Step(s, Begin(w)), w, todo, ios, |todo|);
    assert todo[..|todo|] == todo;
  }

  // ---- No host twice ----

  predicate HostsDiffer(t: Table) { forall j, k :: 0 <= j < k < |t| ==> t[j].host != t[k].host }

  lemma {:induction false} WithoutKeepsHosts(t: Table, id: RowId, user: UserId)
    requires HostsDiffer(t)
    ensures HostsDiffer(Without(t, id, user))
  {
    if t != [] {
      assert forall k :: 0 <= k < |t[1..]| ==> t[1..][k] == t[k + 1];
      WithoutKeepsHosts(t[1..], id, user);
      WithoutAmong(t[1..], id, user);
      var left := Without(t[1..], id, user);
      forall k | 0 <= k < |left| ensures left[k].host != t[0].host {
        assert left[k] in t[1..];
        var j :| 0 <= j < |t[1..]| && t[1..][j] == left[k];
        assert t[j + 1].host != t[0].host;
      }
    }
  }

  /** In no run is a host name requested by two rows at once. */
  lemma {:induction false} OneRowPerHost(acts: seq<Action>)
    ensures HostsDiffer(Exec(EMPTY, acts).rows)
  {
    if acts != [] {
      var s, a := Exec(EMPTY, acts[..|acts| - 1]), acts[|acts| - 1];
      OneRowPerHost(acts[..|acts| - 1]);
      match a {
        case Delete(id, user) => WithoutKeepsHosts(s.rows, id, user);
        case Request(_, _, _) =>
        case _ =>
          var s' := Step(s, a);
          assert |s'.rows| == |s.rows| && forall k :: 0 <= k < |s.rows| ==> s'.rows[k].host == s.rows[k].host;
      }
    }
  }

  // ---- What a mark stands for ----

  /** The steps that leave the marks: a probe whose answer is the token of the row in hand with white space
      around it, a write Validated that goes through, a certificate issued for a validated row in hand. */
  ghost predicate Makes(s: State, a: Action, m: Mark) {
    match m
    case Proved(id) =>
      && a.Call? && InHand(s, a.w, id) && !s.workers[a.w].todo[0].status.Validated?
      && BringsToken(a.io.probe, s.workers[a.w].todo[0].token)
    case Wrote(id) =>
      a.Commit? && a.ok && a.w in s.workers && s.workers[a.w].next == Some(Write(id, Validated))
    case Issued(id) =>
      a.Call? && InHand(s, a.w, id) && s.workers[a.w].todo[0].status.Validated? && a.io.provision
  }

  predicate InHand(s: State, w: SweepId, id: RowId) {
    w in s.workers && Running(s.workers[w]) && s.workers[w].todo[0].id == id
  }

  ghost predicate MadeAt(acts: seq<Action>, k: nat, m: Mark)
    requires k < |acts|
  {
    Makes(Exec(EMPTY, acts[..k]), acts[k], m)
  }

  lemma StepMarks(s: State, a: Action)
    ensures var s' := Step(s, a);
            s'.log == s.log || (|s'.log| == |s.log| + 1 && s'.log[..|s.log|] == s.log && Makes(s, a, s'.log[|s.log|]))
  {
    if a.Call? && a.w in s.workers && Running(s.workers[a.w]) {
      TokenProves(a.io.probe, s.workers[a.w].todo[0].token);
    }
  }

  /** Every mark was left by such a step, and in the order of the steps. */
  lemma {:induction false} MarksAreMade(acts: seq<Action>, i: nat)
    requires i < |Exec(EMPTY, acts).log|
    ensures exists k :: 0 <= k < |acts| && MadeAt(acts, k, Exec(EMPTY, acts).log[i])
  {
    var n := |acts| - 1;
    var before := Exec(EMPTY, acts[..n]);
    StepMarks(before, acts[n]);
    if i < |before.log| {
      MarksAreMade(acts[..n], i);
      var k :| 0 <= k < n && MadeAt(acts[..n], k, before.log[i]);
      assert acts[..n][..k] == acts[..k];
      assert Exec(EMPTY, acts).log[..|before.log|][i] == before.log[i];
      assert MadeAt(acts, k, Exec(EMPTY, acts).log[i]);
    } else {
      assert MadeAt(acts, n, Exec(EMPTY, acts).log[i]);
    }
  }

  // A row keeps its user, host and token, also in the snapshots of the sweeps.
  predicate SameRow(d: Row, r: Row) { d.id == r.id ==> d.user == r.user && d.host == r.host && d.token == r.token }

  ghost predicate RowsFixed(s: State) {
    && (forall j, k :: 0 <= j < |s.rows| && 0 <= k < |s.rows| ==> SameRow(s.rows[j], s.rows[k]))
    && (forall k :: 0 <= k < |s.rows| ==> s.rows[k].id < s.ids)
    && (forall w, d :: w in s.workers && d in s.workers[w].todo ==>
          d.id < s.ids && forall k :: 0 <= k < |s.rows| ==> SameRow(d, s.rows[k]))
  }

  lemma DeleteKeepsRowsFixed(s: State, id: RowId, user: UserId)
    requires RowsFixed(s)
    ensures RowsFixed(Step(s, Delete(id, user)))
  {
    WithoutAmong(s.rows, id, user);
    var t := Without(s.rows, id, user);
    forall k | 0 <= k < |t| ensures t[k] in s.rows { assert t[k] in t; }
  }

  lemma BeginKeepsRowsFixed(s: State, w: SweepId)
    requires RowsFixed(s)
    ensures RowsFixed(Step(s, Begin(w)))
  {
    PendingAre(s.rows, BATCH);
  }

  lemma StepKeepsRowsFixed(s: State, a: Action)
    requires RowsFixed(s)
    ensures RowsFixed(Step(s, a))
  {
    match a {
      case Begin(w) => BeginKeepsRowsFixed(s, w);
      case Delete(id, user) => DeleteKeepsRowsFixed(s, id, user);
      case _ =>
    }
  }

  lemma {:induction false} RunKeepsRowsFixed(acts: seq<Action>)
    ensures RowsFixed(Exec(EMPTY, acts))
  {
    if acts != [] {
      RunKeepsRowsFixed(acts[..|acts| - 1]);
      StepKeepsRowsFixed(Exec(EMPTY, acts[..|acts| - 1]), acts[|acts| - 1]);
    }
  }

  // Step `k` is a call whose probe answers the token of row `r`.
  ghost predicate ProvedAt(acts: seq<Action>, k: nat, r: Row)
    requires k < |acts|
  {
    acts[k].Call? && InHand(Exec(EMPTY, acts[..k]), acts[k].w, r.id) && BringsToken(acts[k].io.probe, r.token)
  }

  lemma {:induction false} IdsGrow(acts: seq<Action>, k: nat)
    requires k <= |acts|
    ensures Exec(EMPTY, acts[..k]).ids <= Exec(EMPTY, acts).ids
  {
    if k < |acts| {
      IdsGrow(acts[..|acts| - 1], k);
      assert acts[..|acts| - 1][..k] == acts[..k];
    } else {
      assert acts[..k] == acts;
    }
  }

  // A row that is not new was there before, with the same token.
  lemma RowWasThere(s: State, a: Action, r: Row)
    requires r in Step(s, a).rows && r.id < s.ids
    ensures exists q :: q in s.rows && q.id == r.id && q.token == r.token
  {
    match a {
      case Delete(id, user) =>
        WithoutAmong(s.rows, id, user);
        assert r in s.rows;
      case Commit(w, ok) =>
        var k :| 0 <= k < |Step(s, a).rows| && Step(s, a).rows[k] == r;
        assert s.rows[k] in s.rows;
      case Request(_, _, _) => assert r in s.rows;
      case _ => assert r in s.rows;
    }
  }

  // The row in hand at some step has the token of the row of that id any number of steps later.
  lemma {:induction false} InHandIsRow(acts: seq<Action>, k: nat, w: SweepId, r: Row)
    requires k <= |acts| && r in Exec(EMPTY, acts).rows && InHand(Exec(EMPTY, acts[..k]), w, r.id)
    ensures Exec(EMPTY, acts[..k]).workers[w].todo[0].token == r.token
    decreases |acts|
  {
    RunKeepsRowsFixed(acts[..k]);
    if k < |acts| {
      var n := |acts| - 1;
      var before := Exec(EMPTY, acts[..n]);
      assert acts[..n][..k] == acts[..k];
      IdsGrow(acts[..n], k);
      assert Exec(EMPTY, acts[..k]).workers[w].todo[0] in Exec(EMPTY, acts[..k]).workers[w].todo;
      RowWasThere(before, acts[n], r);
      var q :| q in before.rows && q.id == r.id && q.token == r.token;
      InHandIsRow(acts[..n], k, w, q);
    } else {
      assert acts[..k] == acts;
      assert Exec(EMPTY, acts).workers[w].todo[0] in Exec(EMPTY, acts).workers[w].todo;
    }
  }

  /** However sweeps overlap, a domain is only ever active after a probe brought back its token, its
      row was then written Validated, and a certificate was provisioned for it after that. */
  lemma ActiveIsCertified(acts: seq<Action>, k: nat)
    requires k < |Exec(EMPTY, acts).rows| && Exec(EMPTY, acts).rows[k].status.Active?
    ensures Certified(Exec(EMPTY, acts).log, Exec(EMPTY, acts).rows[k].id)
    ensures exists j :: 0 <= j < |acts| && ProvedAt(acts, j, Exec(EMPTY, acts).rows[k])
  {
    ExecKeepsInv(acts);
    var s := Exec(EMPTY, acts);
    var r := s.rows[k];
    var i :| 0 <= i < |s.log| && s.log[i] == Proved(r.id);
    MarksAreMade(acts, i);
    var j :| 0 <= j < |acts| && MadeAt(acts, j, s.log[i]);
    InHandIsRow(acts, j, acts[j].w, r);
    assert ProvedAt(acts, j, r);
  }

  // ---- Sweeps that do not overlap ----

  predicate Sequential(s: State) {
    forall w, v :: w in s.workers && v in s.workers && Running(s.workers[w]) && Running(s.workers[v]) ==> w == v
  }

  predicate NotActive(t: Table, id: RowId) { forall k :: 0 <= k < |t| && t[k].id == id ==> !t[k].status.Active? }

  predicate DistinctIds(t: seq<Row>) { forall j, k :: 0 <= j < k < |t| ==> t[j].id != t[k].id }

  // The rows a sweep has still to write are not active, and they are different rows.
  ghost predicate Current(t: Table, x: Worker) {
    && (forall d :: d in x.todo ==> NotActive(t, d.id))
    && DistinctIds(x.todo)
    && (x.next.Some? && x.todo != [] ==> x.next.value.id == x.todo[0].id)
  }

  ghost predicate Keyed(s: State) {
    && DistinctIds(s.rows)
    && (forall k :: 0 <= k < |s.rows| ==> s.rows[k].id < s.ids)
    && (forall w, d :: w in s.workers && d in s.workers[w].todo ==> d.id < s.ids)
  }

  ghost predicate Calm(s: State) {
    Keyed(s) && forall w :: w in s.workers ==> Current(s.rows, s.workers[w])
  }

  lemma {:induction false} PendingDistinct(t: Table, limit: nat)
    requires DistinctIds(t)
    ensures DistinctIds(ListPending(t, limit))
  {
    if t != [] && limit > 0 {
      var rest := if t[0].status.Active? then limit else limit - 1;
      assert DistinctIds(t[1..]) by { assert forall k :: 0 <= k < |t[1..]| ==> t[1..][k] == t[k + 1]; }
      PendingDistinct(t[1..], rest);
      PendingAre(t[1..], rest);
    }
  }

  lemma {:induction false} WithoutDistinct(t: Table, id: RowId, user: UserId)
    requires DistinctIds(t)
    ensures DistinctIds(Without(t, id, user))
  {
    if t != [] {
      assert DistinctIds(t[1..]) by { assert forall k :: 0 <= k < |t[1..]| ==> t[1..][k] == t[k + 1]; }
      WithoutDistinct(t[1..], id, user);
      WithoutAmong(t[1..], id, user);
      var u := Without(t[1..], id, user);
      forall k | 0 <= k < |u| ensures u[k].id != t[0].id { assert u[k] in u; }
    }
  }

  lemma BeginKeepsCalm(s: State, w: SweepId)
    requires Calm(s)
    ensures Calm(Step(s, Begin(w)))
  {
    PendingAre(s.rows, BATCH);
    PendingDistinct(s.rows, BATCH);
  }

  lemma DeleteKeepsCalm(s: State, id: RowId, user: UserId)
    requires Calm(s)
    ensures Calm(Step(s, Delete(id, user)))
  {
    WithoutAmong(s.rows, id, user);
    WithoutDistinct(s.rows, id, user);
    var t := Without(s.rows, id, user);
    forall k | 0 <= k < |t| ensures t[k] in s.rows { assert t[k] in t; }
  }

  lemma CommitKeepsCalm(s: State, w: SweepId, ok: bool)
    requires Calm(s) && Sequential(s)
    ensures Calm(Step(s, Commit(w, ok)))
  {
    var s' := Step(s, Commit(w, ok));
    if w in s.workers && Running(s.workers[w]) && s.workers[w].next.Some? {
      forall v | v in s'.workers ensures Current(s'.rows, s'.workers[v]) {
        if v == w {
          var x := s.workers[w];
          assert forall d :: d in x.todo[1..] ==> d.id != x.todo[0].id && d in x.todo;
        } else {
          assert s'.workers[v].todo == [];
        }
      }
    }
  }

  lemma StepKeepsCalm(s: State, a: Action)
    requires Calm(s) && Sequential(s)
    ensures Calm(Step(s, a))
  {
    match a {
      case Begin(w) => BeginKeepsCalm(s, w);
      case Delete(id, user) => DeleteKeepsCalm(s, id, user);
      case Commit(w, ok) => CommitKeepsCalm(s, w, ok);
      case _ =>
    }
  }

  predicate ActiveIn(t: Table, id: RowId) { exists k :: 0 <= k < |t| && t[k].id == id && t[k].status.Active? }

  lemma StepKeepsActive(s: State, a: Action, id: RowId)
    requires Calm(s) && Sequential(s) && ActiveIn(s.rows, id)
    ensures ActiveIn(Step(s, a).rows, id) || (a.Delete? && a.id == id)
  {
    var k :| 0 <= k < |s.rows| && s.rows[k].id == id && s.rows[k].status.Active?;
    var s' := Step(s, a);
    match a {
      case Delete(i, user) =>
        WithoutAmong(s.rows, i, user);
        if i != id {
          assert s.rows[k] in s'.rows;
          var j :| 0 <= j < |s'.rows| && s'.rows[j] == s.rows[k];
        }
      case Commit(w, ok) =>
        if w in s.workers && Running(s.workers[w]) && s.workers[w].next.Some? {
          assert s.workers[w].todo[0] in s.workers[w].todo;
        }
        assert s'.rows[k] == s.rows[k];
      case _ => assert s'.rows[k] == s.rows[k];
    }
  }

  /** As long as sweeps do not overlap, a domain that is active stays active until its owner deletes it. */
  lemma {:induction false} ActiveUntilDeleted(acts: seq<Action>, i: nat, id: RowId)
    requires i <= |acts| && ActiveIn(Exec(EMPTY, acts[..i]).rows, id)
    requires forall k :: 0 <= k <= |acts| ==> Sequential(Exec(EMPTY, acts[..k]))
    requires forall k :: i <= k < |acts| ==> !(acts[k].Delete? && acts[k].id == id)
    ensures ActiveIn(Exec(EMPTY, acts).rows, id)
  {
    assert acts[..|acts|] == acts;
    if i < |acts| {
      var n := |acts| - 1;
      assert forall k :: 0 <= k <= n ==> acts[..n][..k] == acts[..k];
      ActiveUntilDeleted(acts[..n], i, id);
      SequentialIsCalm(acts[..n]);
      assert Sequential(Exec(EMPTY, acts[..n]));
      StepKeepsActive(Exec(EMPTY, acts[..n]), acts[n], id);
    }
  }

  lemma {:induction false} SequentialIsCalm(acts: seq<Action>)
    requires forall k :: 0 <= k <= |acts| ==> Sequential(Exec(EMPTY, acts[..k]))
    ensures Calm(Exec(EMPTY, acts))
  {
    if acts != [] {
      var n := |acts| - 1;
      assert forall k :: 0 <= k <= n ==> acts[..n][..k] == acts[..k];
      SequentialIsCalm(acts[..n]);
      assert Sequential(Exec(EMPTY, acts[..n]));
      StepKeepsCalm(Exec(EMPTY, acts[..n]), acts[n]);
    }
  }

  /** One step takes an active domain back exactly when it is the write that a sweep has decided on for
      it, other than active, or its owner's deletion. */
  lemma DemotesExactly(s: State, a: Action, id: RowId)
    requires DistinctIds(s.rows) && ActiveIn(s.rows, id)
    ensures !ActiveIn(Step(s, a).rows, id) <==>
            || (a.Commit? && a.ok && a.w in s.workers && Running(s.workers[a.w])
                && s.workers[a.w].next.Some? && s.workers[a.w].next.value.id == id
                && !s.workers[a.w].next.value.status.Active?)
            || (a.Delete? && a.id == id && OwnedBy(s.rows, id, a.user))
  {
    var k :| 0 <= k < |s.rows| && s.rows[k].id == id && s.rows[k].status.Active?;
    var s' := Step(s, a);
    match a {
      case Delete(i, user) =>
        DeleteTakesExactly(s.rows, id, i, user);
      case Commit(w, ok) =>
        assert forall j :: 0 <= j < |s.rows| ==> s'.rows[j].id == s.rows[j].id;
        assert s'.rows[k].status.Active? ==> ActiveIn(s'.rows, id);
      case _ => assert s'.rows[k] == s.rows[k];
    }
  }

  lemma DeleteTakesExactly(t: Table, id: RowId, i: RowId, user: UserId)
    requires DistinctIds(t) && ActiveIn(t, id)
    ensures !ActiveIn(Without(t, i, user), id) <==> i == id && OwnedBy(t, id, user)
  {
    var k :| 0 <= k < |t| && t[k].id == id && t[k].status.Active?;
    var left := Without(t, i, user);
    WithoutAmong(t, i, user);
    if i == id && t[k].user == user {
      forall j | 0 <= j < |left| ensures left[j].id != id { assert left[j] in left; }
    } else {
      assert t[k] in left;
      var j :| 0 <= j < |left| && left[j] == t[k];
    }
  }

  predicate OwnedBy(t: Table, id: RowId, user: UserId) {
    exists k :: 0 <= k < |t| && t[k].id == id && t[k].user == user
  }
}
