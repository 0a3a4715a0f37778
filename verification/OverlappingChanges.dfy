/** Changes of monitors that overlap: each reads its row, writes it and publishes its event in three
    steps, any of which may fail, and the steps of any number of them interleave. When the scheduler's
    registry then agrees with the table. */
module OverlappingChanges {
  import opened Wrappers
  import opened Replica

  type WorkerId = nat

  /** Where one change stands: the call it makes next. `row` is what it has read, or made of it. */
  datatype Pc = Reading(op: Op) | Writing(op: Op, row: Monitor) | Publishing(k: nat) | Over

  /** One write statement: the event that is to be published of it, whether it found its row, and what is
      to be dispatched of the monitor afterwards. */
  datatype Written = Written(told: Event, found: bool, left: Option<Entry>)

  /** `writes` records all write statements, `published` the places in it of those whose event went out;
      no program reads them. */
  datatype State = State(db: Db, writes: seq<Written>, published: seq<nat>, workers: map<WorkerId, Pc>)

  datatype Action = Start(w: WorkerId, op: Op) | Call(w: WorkerId, reply: Reply)

  function Initially(db: Db): State { State(db, [], [], map[]) }

  function Goto(s: State, w: WorkerId, pc: Pc): State { s.(workers := s.workers[w := pc]) }

  predicate Owns(db: Db, id: Id, user: UserId) { id in db && db[id].owner == user }

  // What the checks before the write make of the request.
  function Checked(db: Db, op: Op): Option<Monitor> {
    match op
    case Create(id, user, plan, input) =>
      if MayCreate(db, user, plan, input) then Some(NewMonitor(user, plan, input)) else None
    case Update(id, user, minInterval, patch) =>
      if Owns(db, id, user) then
        var m' := Patched(db[id], patch, minInterval);
        if ValidInput(m'.name, m'.interval, m'.threshold) then Some(m') else None
      else None
    case Delete(id, user) => if Owns(db, id, user) then Some(db[id]) else None
    case TogglePause(id, user) => if Owns(db, id, user) then Some(db[id]) else None
  }

  // The database picks a key that no row has or has had.
  predicate Fresh(s: State, id: Id) { id !in s.db && forall k :: 0 <= k < |s.writes| ==> s.writes[k].told.id != id }

  // The write statement: None when it errs. An update or a delete that finds no row is no error.
  function Write(s: State, op: Op, row: Monitor): Option<(Db, Event, bool)> {
    match op
    case Create(id, _, _, _) => if Fresh(s, id) then Some((s.db[id := row], ToEvent(Created, id, row), true)) else None
    case Update(id, user, _, _) =>
      var found := Owns(s.db, id, user);
      Some((if found then s.db[id := row] else s.db, ToEvent(Updated, id, row), found))
    case Delete(id, user) =>
      var found := Owns(s.db, id, user);
      Some((if found then s.db - {id} else s.db, ToEvent(Deleted, id, row), found))
    case TogglePause(id, user) =>
      if Owns(s.db, id, user) then
        var m' := s.db[id].(paused := !s.db[id].paused);
        Some((s.db[id := m'], ToEvent(if m'.paused then Paused else Resumed, id, m'), true))
      else None
  }

  function Wrote(s: State, db': Db, ev: Event, found: bool): State {
    s.(db := db', writes := s.writes + [Written(ev, found, Wanted(db', ev.id))])
  }

  function Step(s: State, a: Action): State {
    match a
    case Start(w, op) => if w !in s.workers || s.workers[w].Over? then Goto(s, w, Reading(op)) else s
    case Call(w, reply) =>
      if w !in s.workers then s
      else
        match s.workers[w]
        case Reading(op) =>
          var row := Checked(s.db, op);
          Goto(s, w, if reply.Good? && row.Some? then Writing(op, row.value) else Over)
        case Writing(op, row) =>
          if reply.Bad? || Write(s, op, row).None? then Goto(s, w, Over)
          else
            var (db', ev, found) := Write(s, op, row).value;
            Goto(Wrote(s, db', ev, found), w, if reply.Good? then Publishing(|s.writes|) else Over)
        case Publishing(k) => Goto(if reply.Bad? then s else s.(published := s.published + [k]), w, Over)
        case Over => s
  }

  function Exec(s: State, acts: seq<Action>): State {
    if acts == [] then s else Step(Exec(s, acts[..|acts| - 1]), acts[|acts| - 1])
  }

  // ---- Undisturbed, a change is the one step of the serial model ----

  /** The three calls of a change, with nothing in between, do what the change does in one step. A read that
      fails or a write that has no effect leaves all as it was; a write whose answer is lost is not
      published. */
  lemma UndisturbedIsPerform(s: State, w: WorkerId, op: Op, read: Reply, write: Reply, publish: Reply)
    requires (w !in s.workers || s.workers[w].Over?) && (op.Create? ==> Fresh(s, op.id))
    ensures var s' := Exec(s, [Start(w, op), Call(w, read), Call(w, write), Call(w, publish)]);
            && w in s'.workers && s'.workers[w] == Over
            && if !read.Good? || write.Bad? || Perform(s.db, op).None? then
                 s'.db == s.db && s'.writes == s.writes && s'.published == s.published
               else
                 var (db', ev) := Perform(s.db, op).value;
                 && s'.db == db' && s'.writes == s.writes + [Written(ev, true, Wanted(db', op.id))]
                 && s'.published == s.published + if write.Lost? || publish.Bad? then [] else [|s.writes|]
  {
    FourSteps(s, Start(w, op), Call(w, read), Call(w, write), Call(w, publish));
    var s1 := Step(s, Start(w, op));
    var s2 := Step(s1, Call(w, read));
    var s3 := Step(s2, Call(w, write));
    CheckedWritten(s1, op);
    if !read.Good? || Perform(s.db, op).None? {
      assert s2.workers[w] == Over && s3.workers[w] == Over;
    } else {
      assert s2.workers[w] == Writing(op, Checked(s.db, op).value);
      assert s3.workers[w] == if write.Good? then Publishing(|s.writes|) else Over;
    }
  }

  lemma FourSteps(s: State, a: Action, b: Action, c: Action, d: Action)
    ensures Exec(s, [a, b, c, d]) == Step(Step(Step(Step(s, a), b), c), d)
  {
    assert [a, b, c, d][..3] == [a, b, c] && [a, b, c][..2] == [a, b] && [a, b][..1] == [a] && [a][..0] == [];
    assert Exec(s, [a]) == Step(s, a);
    assert Exec(s, [a, b]) == Step(Step(s, a), b);
    assert Exec(s, [a, b, c]) == Step(Step(Step(s, a), b), c);
  }

  // What passes the checks is written as the serial model does when nothing has happened since.
  lemma CheckedWritten(s: State, op: Op)
    requires op.Create? ==> Fresh(s, op.id)
    ensures Checked(s.db, op).None? <==> Perform(s.db, op).None?
    ensures Checked(s.db, op).Some? ==>
              var (db', ev) := Perform(s.db, op).value;
              Write(s, op, Checked(s.db, op).value) == Some((db', ev, true)) && ev.id == op.id
  {
  }

  /** Whatever overlaps, only the owner's own write about a row changes or deletes it, and only a create
      brings one: an update whose row is gone brings nothing back. */
  lemma OnlyOwnersWrite(s: State, a: Action, id: Id)
    ensures var s' := Step(s, a);
            (id in s.db || id in s'.db) && (id in s.db && id in s'.db ==> s.db[id] != s'.db[id]) ==>
              && a.Call? && !a.reply.Bad? && a.w in s.workers && s.workers[a.w].Writing?
              && var op := s.workers[a.w].op;
                 && op.id == id
                 && (id !in s.db ==> op.Create?)
                 && (id !in s'.db ==> op == Delete(id, s.db[id].owner))
                 && (id in s.db && id in s'.db ==> (op.Update? || op.TogglePause?) && op.user == s.db[id].owner)
  {
  }

  // ---- Exactly when the registry agrees ----

  // Only writes that have been made are published.
  ghost predicate Valid(s: State) {
    && (forall j :: 0 <= j < |s.published| ==> s.published[j] < |s.writes|)
    && (forall w :: w in s.workers && s.workers[w].Publishing? ==> s.workers[w].k < |s.writes|)
  }

  lemma StepKeepsValid(s: State, a: Action)
    requires Valid(s)
    ensures Valid(Step(s, a))
  {
  }

  // The events that went out, in their order.
  function Sent(writes: seq<Written>, published: seq<nat>): seq<Event>
    requires forall j :: 0 <= j < |published| ==> published[j] < |writes|
  {
    seq(|published|, j requires 0 <= j < |published| => writes[published[j]].told)
  }

  // The last write about `id`, and the write whose event was the last one about `id` to go out.
  function LastWrite(writes: seq<Written>, id: Id): (k: Option<nat>)
    ensures k.Some? ==> k.value < |writes| && writes[k.value].told.id == id
  {
    var n := |writes| - 1;
    if writes == [] then None else if writes[n].told.id == id then Some(n) else LastWrite(writes[..n], id)
  }

  function LastSent(writes: seq<Written>, published: seq<nat>, id: Id): (k: Option<nat>)
    requires forall j :: 0 <= j < |published| ==> published[j] < |writes|
    ensures k.Some? ==> k.value < |writes| && writes[k.value].told.id == id
  {
    var n := |published| - 1;
    if published == [] then None
    else if writes[published[n]].told.id == id then Some(published[n])
    else LastSent(writes, published[..n], id)
  }

  function LeftBy(db: Db, writes: seq<Written>, k: Option<nat>, id: Id): Option<Entry>
    requires k.Some? ==> k.value < |writes|
  {
    if k.None? then Wanted(db, id) else writes[k.value].left
  }

  function ToldBy(db: Db, writes: seq<Written>, k: Option<nat>, id: Id): Option<Entry>
    requires k.Some? ==> k.value < |writes|
  {
    if k.None? then Wanted(db, id) else Says(writes[k.value].told)
  }

  lemma {:induction false} HeardIsToldBy(db: Db, writes: seq<Written>, published: seq<nat>, id: Id)
    requires forall j :: 0 <= j < |published| ==> published[j] < |writes|
    ensures Heard(db, Sent(writes, published), id) == ToldBy(db, writes, LastSent(writes, published, id), id)
  {
    var sent := Sent(writes, published);
    if published != [] {
      var n := |published| - 1;
      assert sent[..n] == Sent(writes, published[..n]);
      HeardIsToldBy(db, writes, published[..n], id);
    }
  }

  // The table is as the last write left it, and an event tells what its write left if that found its row.
  ghost predicate Recorded(db: Db, s: State, id: Id) {
    && Wanted(s.db, id) == LeftBy(db, s.writes, LastWrite(s.writes, id), id)
    && forall k :: 0 <= k < |s.writes| && s.writes[k].found ==> s.writes[k].left == Says(s.writes[k].told)
  }

  lemma WriteChangesOne(s: State, op: Op, row: Monitor)
    requires Write(s, op, row).Some?
    ensures var (db', ev, found) := Write(s, op, row).value;
            && (forall id :: id != ev.id ==> Wanted(db', id) == Wanted(s.db, id))
            && (found ==> Wanted(db', ev.id) == Says(ev))
  {
  }

  lemma WroteKeepsRecorded(db: Db, s: State, op: Op, row: Monitor, id: Id)
    requires Recorded(db, s, id) && Write(s, op, row).Some?
    ensures var (db', ev, found) := Write(s, op, row).value; Recorded(db, Wrote(s, db', ev, found), id)
  {
    var (db', ev, found) := Write(s, op, row).value;
    WriteChangesOne(s, op, row);
    assert Wrote(s, db', ev, found).writes[..|s.writes|] == s.writes;
  }

  lemma StepKeepsRecorded(db: Db, s: State, a: Action, id: Id)
    requires Recorded(db, s, id)
    ensures Recorded(db, Step(s, a), id)
  {
    if a.Call? && a.w in s.workers && s.workers[a.w].Writing? && !a.reply.Bad? {
      var op, row := s.workers[a.w].op, s.workers[a.w].row;
      if Write(s, op, row).Some? { WroteKeepsRecorded(db, s, op, row, id); }
    } else {
      assert Step(s, a).db == s.db && Step(s, a).writes == s.writes;
    }
  }

  lemma {:induction false} RunIsRecorded(db: Db, acts: seq<Action>, id: Id)
    ensures var s := Exec(Initially(db), acts); Valid(s) && Recorded(db, s, id)
  {
    if acts != [] {
      var n := |acts| - 1;
      RunIsRecorded(db, acts[..n], id);
      StepKeepsValid(Exec(Initially(db), acts[..n]), acts[n]);
      StepKeepsRecorded(db, Exec(Initially(db), acts[..n]), acts[n], id);
    }
  }

  // A scheduler that loaded `db` and was delivered all that went out dispatches what the table says.
  predicate Agrees(db: Db, s: State, id: Id)
    requires forall j :: 0 <= j < |s.published| ==> s.published[j] < |s.writes|
  {
    Dispatchable(ApplyAll(LoadActive(db), Sent(s.writes, s.published)), id) == Wanted(s.db, id)
  }

  /** After any overlapping changes, with any failures, the registry agrees about a monitor exactly when the
      event published last tells what the last write left. An event tells what its own write left, unless
      that was an update or a delete whose row was gone. */
  lemma OverlapsAgreeExactly(db: Db, acts: seq<Action>, id: Id)
    ensures var s := Exec(Initially(db), acts);
            && Valid(s)
            && (Agrees(db, s, id) <==> ToldBy(db, s.writes, LastSent(s.writes, s.published, id), id) ==
                                       LeftBy(db, s.writes, LastWrite(s.writes, id), id))
            && forall k :: 0 <= k < |s.writes| && s.writes[k].found ==> s.writes[k].left == Says(s.writes[k].told)
  {
    var s := Exec(Initially(db), acts);
    RunIsRecorded(db, acts, id);
    HeardIsToldBy(db, s.writes, s.published, id);
    LastEventDecides(LoadActive(db), Sent(s.writes, s.published), id);
  }

  /** So it agrees as soon as the last write about the monitor has found its row and is the last one
      published. */
  lemma LastWritePublishedLastAgrees(db: Db, acts: seq<Action>, id: Id)
    requires var s := Exec(Initially(db), acts); Valid(s) && LastWrite(s.writes, id).Some?
    requires var s := Exec(Initially(db), acts);
             && LastSent(s.writes, s.published, id) == LastWrite(s.writes, id)
             && s.writes[LastWrite(s.writes, id).value].found
    ensures Agrees(db, Exec(Initially(db), acts), id)
  {
    OverlapsAgreeExactly(db, acts, id);
  }

  // ---- Toggles that overlap ----

  predicate OnlyToggles(acts: seq<Action>, id: Id, user: UserId) {
    forall k :: 0 <= k < |acts| && acts[k].Start? ==> acts[k].op == TogglePause(id, user)
  }

  function Toggled(m: Monitor, n: nat): Monitor { m.(paused := if n % 2 == 0 then m.paused else !m.paused) }

  // What is to be dispatched of `m` after `n` toggles.
  function Showing(m: Monitor, n: nat): Option<Entry> {
    if Toggled(m, n).paused then None else Some(ToEntry(Toggled(m, n)))
  }

  lemma ShowsTheSame(m: Monitor, j: nat, k: nat)
    ensures Showing(m, j) == Showing(m, k) <==> (j - k) % 2 == 0
  {
  }

  predicate ToggleOf(pc: Pc, id: Id, user: UserId) {
    pc.Reading? || pc.Writing? ==> pc.op == TogglePause(id, user)
  }

  ghost predicate TogglesInv(db: Db, s: State, id: Id, user: UserId) {
    && Owns(db, id, user) && id in s.db && s.db[id] == Toggled(db[id], |s.writes|)
    && (forall w :: w in s.workers ==> ToggleOf(s.workers[w], id, user))
    && (forall k :: 0 <= k < |s.writes| ==> ToggleAt(db, s.writes[k], k, id))
  }

  predicate ToggleAt(db: Db, x: Written, k: nat, id: Id)
    requires id in db
  {
    x.told.id == id && x.found && x.left == Showing(db[id], k + 1)
  }

  lemma StepKeepsToggles(db: Db, s: State, a: Action, id: Id, user: UserId)
    requires TogglesInv(db, s, id, user) && (a.Start? ==> a.op == TogglePause(id, user))
    ensures TogglesInv(db, Step(s, a), id, user)
  {
    if a.Call? && a.w in s.workers {
      var pc, s' := s.workers[a.w], Step(s, a);
      assert ToggleOf(pc, id, user);
      if pc.Writing? && !a.reply.Bad? {
        assert s'.db[id] == Toggled(db[id], |s.writes| + 1);
        assert s'.writes == s.writes + [s'.writes[|s.writes|]];
        assert ToggleAt(db, s'.writes[|s.writes|], |s.writes|, id);
      } else {
        assert s'.writes == s.writes && s'.db == s.db;
      }
    }
  }

  lemma {:induction false} TogglesRun(db: Db, acts: seq<Action>, id: Id, user: UserId)
    requires Owns(db, id, user) && OnlyToggles(acts, id, user)
    ensures TogglesInv(db, Exec(Initially(db), acts), id, user)
  {
    if acts != [] {
      var n := |acts| - 1;
      assert forall k :: 0 <= k < n ==> acts[..n][k] == acts[k];
      TogglesRun(db, acts[..n], id, user);
      StepKeepsToggles(db, Exec(Initially(db), acts[..n]), acts[n], id, user);
    }
  }

  // How many writes there were up to the one whose event went out last.
  function Reported(s: State): nat {
    if s.published == [] then 0 else s.published[|s.published| - 1] + 1
  }

  lemma ToldIsReported(db: Db, s: State, id: Id, user: UserId)
    requires Valid(s) && Recorded(db, s, id) && TogglesInv(db, s, id, user)
    ensures ToldBy(db, s.writes, LastSent(s.writes, s.published, id), id) == Showing(db[id], Reported(s))
  {
    if s.published != [] {
      var r := s.published[|s.published| - 1];
      assert ToggleAt(db, s.writes[r], r, id);
    }
  }

  /** With any number of overlapping toggles of one monitor, the registry agrees exactly when the number of
      writes that came after the one published last is even. */
  lemma {:induction false} TogglesAgreeExactly(db: Db, acts: seq<Action>, id: Id, user: UserId)
    requires Owns(db, id, user) && OnlyToggles(acts, id, user)
    ensures var s := Exec(Initially(db), acts);
            Valid(s) && (Agrees(db, s, id) <==> (|s.writes| - Reported(s)) % 2 == 0)
  {
    RunIsRecorded(db, acts, id);
    TogglesRun(db, acts, id, user);
    AgreesByParity(db, Exec(Initially(db), acts), id, user);
  }

  lemma {:induction false} AgreesByParity(db: Db, s: State, id: Id, user: UserId)
    requires Valid(s) && Recorded(db, s, id) && TogglesInv(db, s, id, user)
    ensures Agrees(db, s, id) <==> (|s.writes| - Reported(s)) % 2 == 0
  {
    HeardIsToldBy(db, s.writes, s.published, id);
    LastEventDecides(LoadActive(db), Sent(s.writes, s.published), id);
    SameParity(db, s, id, user);
  }

  lemma {:induction false} SameParity(db: Db, s: State, id: Id, user: UserId)
    requires Valid(s) && Recorded(db, s, id) && TogglesInv(db, s, id, user)
    ensures var told := ToldBy(db, s.writes, LastSent(s.writes, s.published, id), id);
            told == Wanted(s.db, id) <==> (|s.writes| - Reported(s)) % 2 == 0
  {
    ToldIsReported(db, s, id, user);
    assert Wanted(s.db, id) == Showing(db[id], |s.writes|);
    ShowsTheSame(db[id], |s.writes|, Reported(s));
  }
}
