/** What is left of the incident automaton when the checks of one monitor are processed by any
    number of workers at once, when calls fail or take effect without an answer, when checks are
    redelivered, and while users open and close incidents by hand. */
module IncidentConcurrent {
  import opened Wrappers
  import opened IncidentSerial

  type WorkerId = nat

  /** `due` records the threshold under which an automatic incident was created; no program reads it. */
  datatype Incident = Incident(manual: bool, open: bool, due: int)

  // Where one `RunCheck` stands: the call it makes next.
  datatype Pc =
    | Inserting(up: bool, threshold: int)
    | Updating(up: bool, threshold: int)
    | Writing(up: bool, threshold: int, previous: Status)
    | Counting(threshold: int)
    | AskingCooldown(threshold: int)
    | AskingMaintenance(threshold: int)
    | Creating(threshold: int)
    | PublishingDown(id: nat)
    | Finding
    | Resolving(id: nat)
    | PublishingUp(id: nat)
    | Finished

  /** `flips` counts the UpdateStatus calls that moved the row from down to up. */
  datatype State = State(
    results: seq<bool>, status: Status, flips: nat,
    incidents: seq<Incident>, alerts: seq<Alert>, workers: map<WorkerId, Pc>)

  datatype Action =
    | Start(w: WorkerId, up: bool, threshold: int)        // a delivery or a redelivery
    | Call(w: WorkerId, reply: Reply, place: nat, yes: bool)  // the next call; queries answer `yes`
    | OpenByHand
    | CloseByHand(id: nat)

  function Newest(incidents: seq<Incident>): Option<nat> {
    if incidents == [] then None
    else if incidents[|incidents| - 1].open then Some(|incidents| - 1)
    else Newest(incidents[..|incidents| - 1])
  }

  lemma NewestInRange(incidents: seq<Incident>)
    ensures Newest(incidents).Some? ==> Newest(incidents).value < |incidents|
  {
    if incidents != [] { NewestInRange(incidents[..|incidents| - 1]); }
  }

  function Goto(s: State, w: WorkerId, pc: Pc): State { s.(workers := s.workers[w := pc]) }

  // Results are ordered by the time of the check, so a slow worker inserts among later ones.
  function InsertAt(results: seq<bool>, place: nat, up: bool): seq<bool> {
    if place <= |results| then results[..place] + [up] + results[place..] else results + [up]
  }

  lemma {:induction false} CountedOnce(results: seq<bool>, n: nat)
    requires EndsIn(results, n)
    ensures TrailingFailures(results) == n
  {
    if n > 0 { CountedOnce(results[..|results| - 1], n - 1); }
  }

  lemma InsertShifts(results: seq<bool>, place: nat, up: bool)
    ensures var after, p := InsertAt(results, place, up), if place <= |results| then place else |results|;
            && |after| == |results| + 1 && after[p] == up
            && (forall k :: 0 <= k < p ==> after[k] == results[k])
            && (forall k :: p < k < |after| ==> after[k] == results[k - 1])
  {
  }

  // The run of failures at the end, `n` of them.
  predicate EndsIn(results: seq<bool>, n: nat) {
    && n <= |results| && (forall k :: |results| - n <= k < |results| ==> !results[k])
    && (n < |results| ==> results[|results| - n - 1])
  }

  lemma EarlierLands(results: seq<bool>, n: nat, place: nat, up: bool)
    requires EndsIn(results, n) && place < |results| - n
    ensures EndsIn(InsertAt(results, place, up), n)
  {
    var after := InsertAt(results, place, up);
    InsertShifts(results, place, up);
    assert after[|results| - n] == results[|results| - n - 1];
    forall k | |after| - n <= k < |after| ensures !after[k] { assert after[k] == results[k - 1]; }
  }

  lemma LaterLands(results: seq<bool>, n: nat, place: nat, up: bool)
    requires EndsIn(results, n) && |results| - n <= place <= |results|
    ensures EndsIn(InsertAt(results, place, up), if up then |results| - place else n + 1)
  {
    var after := InsertAt(results, place, up);
    InsertShifts(results, place, up);
    forall k | place < k < |after| ensures !after[k] { assert after[k] == results[k - 1]; }
  }

  lemma {:induction false} InsertedCounts(results: seq<bool>, place: nat, up: bool)
    requires place <= |results|
    ensures var n := TrailingFailures(results);
            TrailingFailures(InsertAt(results, place, up)) ==
            if place < |results| - n then n else if up then |results| - place else n + 1
  {
    var n := TrailingFailures(results);
    TrailingFailuresAre(results);
    assert EndsIn(results, n);
    if place < |results| - n {
      EarlierLands(results, n, place, up);
      CountedOnce(InsertAt(results, place, up), n);
    } else {
      LaterLands(results, n, place, up);
      CountedOnce(InsertAt(results, place, up), if up then |results| - place else n + 1);
    }
  }

  lemma InsertedPast(results: seq<bool>, place: nat, up: bool)
    requires place > |results|
    ensures InsertAt(results, place, up) == InsertAt(results, |results|, up)
  {
    assert results[..|results|] == results && results[|results|..] == [];
  }

  /** A result that comes in late counts by its time: a failure from before the latest success changes
      nothing, and a success ends the run of failures where it falls, not where it arrives. */
  lemma {:induction false} InsertMovesCount(results: seq<bool>, place: nat, up: bool)
    ensures var n, p := TrailingFailures(results), if place <= |results| then place else |results|;
            TrailingFailures(InsertAt(results, place, up)) ==
            if p < |results| - n then n else if up then |results| - p else n + 1
  {
    if place > |results| { InsertedPast(results, place, up); }
    InsertedCounts(results, if place <= |results| then place else |results|, up);
  }

  function Close(s: State, id: nat): State {
    if id < |s.incidents| then s.(incidents := s.incidents[id := s.incidents[id].(open := false)]) else s
  }

  // The effect of the next call of `w`, and where its caller goes when it hears of it.
  function Effect(s: State, w: WorkerId, place: nat, yes: bool): (State, Pc)
    requires w in s.workers
  {
    match s.workers[w]
    case Inserting(up, t) => (s.(results := InsertAt(s.results, place, up)), Updating(up, t))
    // UpdateStatus: one statement, which reads the old status from its snapshot before it takes the row.
    case Updating(up, t) => (s, Writing(up, t, s.status))
    case Writing(up, t, previous) =>
      var s' := s.(status := if up then Up else Down, flips := if up && s.status.Down? then s.flips + 1 else s.flips);
      (s', if !up then Counting(t) else if previous.Down? then Finding else Finished)
    case Counting(t) => (s, if TrailingFailures(s.results) < t then Finished else AskingCooldown(t))
    case AskingCooldown(t) => (s, if yes then Finished else AskingMaintenance(t))
    case AskingMaintenance(t) => (s, if yes then Finished else Creating(t))
    case Creating(t) =>
      if Newest(s.incidents).Some? then (s, Finished)
      else (s.(incidents := s.incidents + [Incident(false, true, t)]), PublishingDown(|s.incidents|))
    case PublishingDown(id) => (s.(alerts := s.alerts + [DownAlert(id)]), Finished)
    case Finding => (s, if Newest(s.incidents).Some? then Resolving(Newest(s.incidents).value) else Finished)
    case Resolving(id) => (Close(s, id), PublishingUp(id))
    case PublishingUp(id) => (s.(alerts := s.alerts + [UpAlert(id)]), Finished)
    case Finished => (s, Finished)
  }

  // A failing maintenance query is logged and read as "no"; every other error ends the handler.
  function AfterError(pc: Pc): Pc {
    if pc.AskingMaintenance? then Creating(pc.threshold) else Finished
  }

  function Step(s: State, a: Action): State {
    match a
    case Start(w, up, t) =>
      if w !in s.workers || s.workers[w].Finished? then Goto(s, w, Inserting(up, t)) else s
    case Call(w, reply, place, yes) =>
      if w !in s.workers then s
      else
        var (s', pc) := Effect(s, w, place, yes);
        if reply.Good? then Goto(s', w, pc)
        else Goto(if reply.Lost? then s' else s, w, AfterError(s.workers[w]))
    case OpenByHand =>
      if Newest(s.incidents).Some? then s else s.(incidents := s.incidents + [Incident(true, true, 0)])
    case CloseByHand(id) => Close(s, id)
  }

  function Exec(s: State, acts: seq<Action>): State {
    if acts == [] then s else Step(Exec(s, acts[..|acts| - 1]), acts[|acts| - 1])
  }

  lemma ExecNext(s: State, acts: seq<Action>, k: nat)
    requires k < |acts|
    ensures Exec(s, acts[..k + 1]) == Step(Exec(s, acts[..k]), acts[k])
  {
    assert acts[..k + 1][..k] == acts[..k];
  }

  predicate Initial(s: State) {
    s.results == [] && s.incidents == [] && s.alerts == [] && s.flips == 0 && s.workers == map[]
  }

  // ---- Undisturbed, a handler does what the serial automaton does ----

  function Flags(incidents: seq<Incident>): seq<bool> {
    seq(|incidents|, k requires 0 <= k < |incidents| => incidents[k].open)
  }

  lemma {:induction false} NewestIsOpenIncident(incidents: seq<Incident>)
    ensures Newest(incidents) == OpenIncident(Flags(incidents))
  {
    if incidents != [] {
      var n := |incidents| - 1;
      NewestIsOpenIncident(incidents[..n]);
      assert Flags(incidents)[..n] == Flags(incidents[..n]);
    }
  }

  // The rows as the serial automaton sees them.
  function View(s: State): Rows { Rows(s.results, s.status, Flags(s.incidents), s.alerts) }

  // A delivery of the check to `w` and its calls, all of which succeed, but for a maintenance query that
  // fails; the query for cooldown is the fifth, the one for maintenance the sixth. A finished handler calls
  // nothing.
  function Handling(s: State, w: WorkerId, c: Check): seq<Action> {
    var call := Call(w, Good, |s.results|, false);
    [Start(w, c.up, c.threshold), call, call, call, call, Call(w, Good, 0, c.cooldown),
     Call(w, if !c.up && c.maintenance.Failed? then Bad else Good, 0, c.maintenance.Ongoing?), call, call]
  }

  function At(s: State, w: WorkerId, c: Check, n: nat): State
    requires n <= 9
  {
    Exec(s, Handling(s, w, c)[..n])
  }

  // What the serial automaton sees of a state, and where the worker stands, if there is such a worker.
  function Seen(s: State, w: WorkerId): (Rows, Option<Pc>) {
    (View(s), if w in s.workers then Some(s.workers[w]) else None)
  }

  // After `n` steps of the handling.
  predicate Stands(s: State, w: WorkerId, c: Check, n: nat, r: Rows, pc: Pc)
    requires n <= 9
  {
    Seen(At(s, w, c, n), w) == (r, Some(pc))
  }

  // The call that follows step `n`.
  lemma AloneNext(s: State, w: WorkerId, c: Check, n: nat)
    requires n < 9
    ensures At(s, w, c, n + 1) == Step(At(s, w, c, n), Handling(s, w, c)[n])
  {
    ExecNext(s, Handling(s, w, c), n);
  }

  predicate Free(s: State, w: WorkerId) { w !in s.workers || s.workers[w].Finished? }

  function Noted(r: Rows, c: Check): Rows {
    r.(results := r.results + [c.up], status := if c.up then Up else Down)
  }

  // The result is inserted and the status written.
  lemma AloneRecords(s: State, w: WorkerId, c: Check)
    requires Free(s, w)
    ensures Stands(s, w, c, 4, Noted(View(s), c),
                   if !c.up then Counting(c.threshold) else if s.status.Down? then Finding else Finished)
  {
    assert Handling(s, w, c)[..0] == [];
    AloneNext(s, w, c, 0);
    AloneNext(s, w, c, 1);
    assert At(s, w, c, 2).results == s.results + [c.up];
    assert Stands(s, w, c, 2, View(s).(results := s.results + [c.up]), Updating(c.up, c.threshold));
    AloneNext(s, w, c, 2);
    AloneNext(s, w, c, 3);
  }

  lemma AloneCounts(s: State, w: WorkerId, c: Check, r: Rows)
    requires Stands(s, w, c, 4, r, Counting(c.threshold))
    ensures Stands(s, w, c, 5, r, if TrailingFailures(r.results) < c.threshold then Finished
                                  else AskingCooldown(c.threshold))
  {
    AloneNext(s, w, c, 4);
  }

  lemma AloneAsks(s: State, w: WorkerId, c: Check, r: Rows)
    requires Stands(s, w, c, 5, r, AskingCooldown(c.threshold)) && !c.up
    ensures Stands(s, w, c, 7, r, if c.cooldown || c.maintenance == Ongoing then Finished else Creating(c.threshold))
  {
    AloneNext(s, w, c, 5);
    AloneNext(s, w, c, 6);
  }

  lemma FlagsChange(incidents: seq<Incident>, x: Incident, id: nat)
    ensures Flags(incidents + [x]) == Flags(incidents) + [x.open]
    ensures id < |incidents| ==>
              Flags(incidents[id := incidents[id].(open := false)]) == Flags(incidents)[id := false]
  {
  }

  lemma AloneCreates(s: State, w: WorkerId, c: Check, r: Rows)
    requires Stands(s, w, c, 7, r, Creating(c.threshold))
    ensures if OpenIncident(r.open).Some? then Stands(s, w, c, 9, r, Finished)
            else Stands(s, w, c, 9, r.(open := r.open + [true], alerts := r.alerts + [DownAlert(|r.open|)]), Finished)
  {
    var t := At(s, w, c, 7);
    NewestIsOpenIncident(t.incidents);
    FlagsChange(t.incidents, Incident(false, true, c.threshold), 0);
    AloneNext(s, w, c, 7);
    AloneNext(s, w, c, 8);
  }

  // A handler that is finished stays so.
  lemma {:induction false} AloneRests(s: State, w: WorkerId, c: Check, n: nat, r: Rows)
    requires 4 <= n <= 9 && Stands(s, w, c, n, r, Finished)
    ensures Stands(s, w, c, 9, r, Finished)
    decreases 9 - n
  {
    if n < 9 {
      AloneNext(s, w, c, n);
      AloneRests(s, w, c, n + 1, r);
    }
  }

  lemma DownAlone(s: State, w: WorkerId, c: Check)
    requires Free(s, w) && !c.up
    ensures Stands(s, w, c, 9, Process(View(s), c), Finished)
  {
    var r := Noted(View(s), c);
    AloneRecords(s, w, c);
    AloneCounts(s, w, c, r);
    if TrailingFailures(r.results) < c.threshold {
      AloneRests(s, w, c, 5, r);
    } else {
      AloneAsks(s, w, c, r);
      if c.cooldown || c.maintenance == Ongoing { AloneRests(s, w, c, 7, r); } else { AloneCreates(s, w, c, r); }
    }
  }

  lemma AloneRecovers(s: State, w: WorkerId, c: Check, r: Rows)
    requires Stands(s, w, c, 4, r, Finding) && c.up
    ensures match OpenIncident(r.open)
            case None => Stands(s, w, c, 5, r, Finished)
            case Some(id) =>
              id < |r.open| &&
              Stands(s, w, c, 7, r.(open := r.open[id := false], alerts := r.alerts + [UpAlert(id)]), Finished)
  {
    var t := At(s, w, c, 4);
    NewestIsOpenIncident(t.incidents);
    NewestInRange(t.incidents);
    if Newest(t.incidents).Some? { FlagsChange(t.incidents, Incident(false, true, 0), Newest(t.incidents).value); }
    AloneNext(s, w, c, 4);
    AloneNext(s, w, c, 5);
    AloneNext(s, w, c, 6);
  }

  lemma UpAlone(s: State, w: WorkerId, c: Check)
    requires Free(s, w) && c.up
    ensures Stands(s, w, c, 9, Process(View(s), c), Finished)
  {
    var r := Noted(View(s), c);
    AloneRecords(s, w, c);
    if !s.status.Down? {
      AloneRests(s, w, c, 4, r);
    } else {
      AloneRecovers(s, w, c, r);
      if OpenIncident(r.open).None? {
        AloneRests(s, w, c, 5, r);
      } else {
        AloneRests(s, w, c, 7, Process(View(s), c));
      }
    }
  }

  /** A check that is handled with nothing in between, from any state, does what the serial automaton does. */
  lemma AloneIsProcess(s: State, w: WorkerId, c: Check)
    requires Free(s, w)
    ensures var t := Exec(s, Handling(s, w, c));
            View(t) == Process(View(s), c) && w in t.workers && t.workers[w] == Finished
  {
    assert Handling(s, w, c)[..9] == Handling(s, w, c);
    if c.up { UpAlone(s, w, c); } else { DownAlone(s, w, c); }
  }

  // ---- Down alerts ----

  ghost predicate DownInv(s: State) {
    && (forall j, k :: 0 <= j < k < |s.alerts| && s.alerts[j].DownAlert? ==> s.alerts[j] != s.alerts[k])
    && (forall w :: w in s.workers && s.workers[w].PublishingDown? ==> DownAlert(s.workers[w].id) !in s.alerts)
    && (forall w, v :: w in s.workers && v in s.workers && w != v && s.workers[w].PublishingDown? ==>
          s.workers[v] != s.workers[w])
  }

  // The incident a worker goes on about exists; one it announces as down is automatic.
  predicate Grounded(incidents: seq<Incident>, pc: Pc) {
    match pc
    case PublishingDown(id) => id < |incidents| && !incidents[id].manual
    case Resolving(id) => id < |incidents|
    case PublishingUp(id) => id < |incidents|
    case _ => true
  }

  ghost predicate Created(s: State) {
    && (forall k :: 0 <= k < |s.alerts| ==>
          s.alerts[k].id < |s.incidents| && (s.alerts[k].DownAlert? ==> !s.incidents[s.alerts[k].id].manual))
    && (forall w :: w in s.workers ==> Grounded(s.incidents, s.workers[w]))
  }

  // Incidents are only added, and who opened them stays.
  predicate Grows(before: seq<Incident>, after: seq<Incident>) {
    |before| <= |after| && forall k :: 0 <= k < |before| ==> after[k].manual == before[k].manual
  }

  lemma EffectKeepsCreated(s: State, w: WorkerId, place: nat, yes: bool)
    requires Created(s) && w in s.workers
    ensures var (s', pc) := Effect(s, w, place, yes);
            && Created(s') && Grounded(s'.incidents, pc) && Grows(s.incidents, s'.incidents)
            && s'.workers == s.workers
  {
    NewestInRange(s.incidents);
    assert Grounded(s.incidents, s.workers[w]);
  }

  lemma StepKeepsCreated(s: State, a: Action)
    requires Created(s)
    ensures Created(Step(s, a))
  {
    match a {
      case Call(w, reply, place, yes) =>
        if w in s.workers { EffectKeepsCreated(s, w, place, yes); }
      case _ =>
    }
  }

  // The alert a worker that makes its next call may publish.
  function Publishes(pc: Pc): seq<Alert> {
    match pc
    case PublishingDown(id) => [DownAlert(id)]
    case PublishingUp(id) => [UpAlert(id)]
    case _ => []
  }

  // One step as far as alerts go: one worker moves, publishing nothing or what it was to publish.
  lemma OneWorkerMoves(s: State, a: Action) returns (w: WorkerId, was: Pc, pc: Pc)
    ensures var s' := Step(s, a);
            && (s'.workers == s.workers || s'.workers == s.workers[w := pc])
            && (s'.workers == s.workers ==> s'.alerts == s.alerts)
            && was == (if w in s.workers then s.workers[w] else Finished)
            && (s'.alerts == s.alerts || s'.alerts == s.alerts + Publishes(was))
            && (s'.alerts != s.alerts ==> pc == Finished)
            && (pc.PublishingDown? ==> was.Creating? && pc.id == |s.incidents|)
  {
    match a {
      case Start(w0, up, t) => w, pc := w0, Inserting(up, t);
      case Call(w0, reply, place, yes) =>
        w := w0;
        pc := if w0 in s.workers then Step(s, a).workers[w0] else Finished;
      case _ => w, pc := 0, Finished;
    }
    was := if w in s.workers then s.workers[w] else Finished;
    if (a.Start? && !was.Finished?) || (!a.Start? && !a.Call?) {
      pc := Finished;
    }
  }

  lemma StepKeepsDownInv(s: State, a: Action)
    requires DownInv(s) && Created(s)
    ensures DownInv(Step(s, a))
  {
    var w, was, pc := OneWorkerMoves(s, a);
    var s' := Step(s, a);
    if pc.PublishingDown? {
      assert forall k :: 0 <= k < |s.alerts| ==> s.alerts[k].id < pc.id;
    }
  }

  lemma {:induction false} ExecKeepsDownInv(s: State, acts: seq<Action>)
    requires Initial(s)
    ensures DownInv(Exec(s, acts)) && Created(Exec(s, acts))
  {
    if acts != [] {
      ExecKeepsDownInv(s, acts[..|acts| - 1]);
      StepKeepsCreated(Exec(s, acts[..|acts| - 1]), acts[|acts| - 1]);
      StepKeepsDownInv(Exec(s, acts[..|acts| - 1]), acts[|acts| - 1]);
    }
  }

  /** However the workers interleave and whatever fails, an incident gets at most one down alert, only
      automatic ones get any, and no alert names an incident that was not created before it. */
  lemma DownAlertsOncePerIncident(s: State, acts: seq<Action>, j: nat)
    requires Initial(s) && j < |Exec(s, acts).alerts|
    ensures var t := Exec(s, acts);
            && t.alerts[j].id < |t.incidents|
            && (t.alerts[j].DownAlert? ==>
                  !t.incidents[t.alerts[j].id].manual
                  && forall k :: 0 <= k < |t.alerts| && t.alerts[k] == t.alerts[j] ==> k == j)
  {
    ExecKeepsDownInv(s, acts);
  }

  // ---- Why incidents are created ----

  // At some moment of the first `n` steps, before there were more than `id` incidents, the results
  // ended in at least `t` failures.
  ghost predicate Sustained(s: State, acts: seq<Action>, n: nat, id: nat, t: int)
    requires n <= |acts|
  {
    exists i :: 0 <= i <= n && ReachedAt(s, acts, i, id, t)
  }

  ghost predicate ReachedAt(s: State, acts: seq<Action>, i: nat, id: nat, t: int)
    requires i <= |acts|
  {
    var r := Exec(s, acts[..i]);
    TrailingFailures(r.results) >= t && |r.incidents| <= id
  }

  predicate Convinced(pc: Pc) { pc.AskingCooldown? || pc.AskingMaintenance? || pc.Creating? }

  ghost predicate Justified(s: State, acts: seq<Action>, n: nat)
    requires n <= |acts|
  {
    var r := Exec(s, acts[..n]);
    && (forall w :: w in r.workers && Convinced(r.workers[w]) ==>
          Sustained(s, acts, n, |r.incidents|, r.workers[w].threshold))
    && (forall id :: 0 <= id < |r.incidents| && !r.incidents[id].manual ==>
          Sustained(s, acts, n, id, r.incidents[id].due))
  }

  lemma SustainedLater(s: State, acts: seq<Action>, n: nat, n': nat, id: nat, id': nat, t: int)
    requires n <= n' <= |acts| && id <= id' && Sustained(s, acts, n, id, t)
    ensures Sustained(s, acts, n', id', t)
  {
    var i :| 0 <= i <= n && ReachedAt(s, acts, i, id, t);
    assert ReachedAt(s, acts, i, id', t);
  }

  // What a worker is convinced of was so before or is counted just now.
  lemma ConvictionFounded(r: State, a: Action, w: WorkerId)
    requires var r' := Step(r, a); w in r'.workers && Convinced(r'.workers[w])
    ensures var pc := Step(r, a).workers[w];
            || (w in r.workers && Convinced(r.workers[w]) && r.workers[w].threshold == pc.threshold)
            || TrailingFailures(r.results) >= pc.threshold
  {
  }

  // An automatic incident was there before or is opened just now, by a worker convinced of it.
  lemma IncidentFounded(r: State, a: Action, id: nat)
    requires var r' := Step(r, a); id < |r'.incidents| && !r'.incidents[id].manual
    ensures var due := Step(r, a).incidents[id].due;
            if id < |r.incidents| then !r.incidents[id].manual && r.incidents[id].due == due
            else a.Call? && a.w in r.workers && r.workers[a.w].Creating? && id == |r.incidents| &&
                 due == r.workers[a.w].threshold
  {
  }

  lemma IncidentsStay(r: State, a: Action)
    ensures |r.incidents| <= |Step(r, a).incidents|
  {
  }

  lemma {:induction false} IncidentsRestOnFailures(s: State, acts: seq<Action>, n: nat)
    requires Initial(s) && n <= |acts|
    ensures Justified(s, acts, n)
  {
    assert acts[..0] == [];
    if n > 0 {
      IncidentsRestOnFailures(s, acts, n - 1);
      var r := Exec(s, acts[..n - 1]);
      assert acts[..n][..n - 1] == acts[..n - 1];
      var r' := Exec(s, acts[..n]);
      assert r' == Step(r, acts[n - 1]);
      IncidentsStay(r, acts[n - 1]);
      forall w | w in r'.workers && Convinced(r'.workers[w])
        ensures Sustained(s, acts, n, |r'.incidents|, r'.workers[w].threshold)
      {
        ConvictionFounded(r, acts[n - 1], w);
        if TrailingFailures(r.results) >= r'.workers[w].threshold {
          assert ReachedAt(s, acts, n - 1, |r'.incidents|, r'.workers[w].threshold);
        } else {
          SustainedLater(s, acts, n - 1, n, |r.incidents|, |r'.incidents|, r'.workers[w].threshold);
        }
      }
      forall id | 0 <= id < |r'.incidents| && !r'.incidents[id].manual
        ensures Sustained(s, acts, n, id, r'.incidents[id].due)
      {
        IncidentFounded(r, acts[n - 1], id);
        SustainedLater(s, acts, n - 1, n, id, id, r'.incidents[id].due);
      }
    }
  }

  /** Every automatic incident was preceded by a moment at which the results ended in as many
      failures as the threshold of the check that opened it asks for. */
  lemma EveryIncidentPrecededByFailures(s: State, acts: seq<Action>, id: nat)
    requires Initial(s) && id < |Exec(s, acts).incidents| && !Exec(s, acts).incidents[id].manual
    ensures Sustained(s, acts, |acts|, id, Exec(s, acts).incidents[id].due)
  {
    assert acts[..|acts|] == acts;
    IncidentsRestOnFailures(s, acts, |acts|);
  }
}
