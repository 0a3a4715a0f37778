/** When an incident is open on a monitor that is up, and when it stays so. */
module IncidentLeftOpen {
  import opened Wrappers
  import opened IncidentSerial
  import opened IncidentConcurrent
  import opened IncidentRecovery

  predicate OpenWhileUp(s: State) { s.status.Up? && Newest(s.incidents).Some? }

  // ---- The steps that begin it and end it ----

  // The next call of a worker takes effect.
  predicate TakesEffect(s: State, a: Action) { a.Call? && !a.reply.Bad? && a.w in s.workers }

  predicate CreatesWhileUp(s: State, a: Action) {
    TakesEffect(s, a) && s.workers[a.w].Creating? && Newest(s.incidents).None? && s.status.Up?
  }

  predicate WritesUpOverOpen(s: State, a: Action) {
    TakesEffect(s, a) && s.workers[a.w].Writing? && s.workers[a.w].up && Newest(s.incidents).Some?
  }

  predicate HandWhileUp(s: State, a: Action) { a.OpenByHand? && Newest(s.incidents).None? && s.status.Up? }

  predicate Opens(s: State, a: Action) { CreatesWhileUp(s, a) || WritesUpOverOpen(s, a) || HandWhileUp(s, a) }

  predicate Closes(s: State, a: Action) {
    || (TakesEffect(s, a) && s.workers[a.w].Resolving? && Newest(s.incidents) == Some(s.workers[a.w].id))
    || (TakesEffect(s, a) && s.workers[a.w].Writing? && !s.workers[a.w].up)
    || (a.CloseByHand? && Newest(s.incidents) == Some(a.id))
  }

  // The unique index on open incidents.
  ghost predicate OneOpen(incidents: seq<Incident>) {
    forall j, k :: 0 <= j < k < |incidents| ==> !(incidents[j].open && incidents[k].open)
  }

  lemma {:induction false} NewestIsOpen(incidents: seq<Incident>)
    ensures Newest(incidents).Some? ==> Newest(incidents).value < |incidents| && incidents[Newest(incidents).value].open
    ensures Newest(incidents).None? <==> forall k :: 0 <= k < |incidents| ==> !incidents[k].open
  {
    if incidents != [] {
      var n := |incidents| - 1;
      NewestIsOpen(incidents[..n]);
      assert forall k :: 0 <= k < n ==> incidents[..n][k] == incidents[k];
    }
  }

  // Closing an incident leaves none open exactly when it is the open one.
  lemma CloseEmpties(s: State, id: nat)
    requires OneOpen(s.incidents) && Newest(s.incidents).Some?
    ensures Newest(Close(s, id).incidents).None? <==> Newest(s.incidents) == Some(id)
    ensures OneOpen(Close(s, id).incidents)
  {
    var after := Close(s, id).incidents;
    NewestIsOpen(s.incidents);
    NewestIsOpen(after);
    var k := Newest(s.incidents).value;
    assert k != id ==> after[k].open;
  }

  lemma StepKeepsOneOpen(s: State, a: Action)
    requires OneOpen(s.incidents)
    ensures OneOpen(Step(s, a).incidents)
  {
    NewestIsOpen(s.incidents);
  }

  lemma CloseOfNone(s: State, id: nat)
    requires Newest(s.incidents).None?
    ensures Newest(Close(s, id).incidents).None?
  {
    NewestIsOpen(s.incidents);
    NewestIsOpen(Close(s, id).incidents);
  }

  lemma NewestAppended(incidents: seq<Incident>, x: Incident)
    ensures Newest(incidents + [x]) == if x.open then Some(|incidents| as nat) else Newest(incidents)
  {
    assert (incidents + [x])[..|incidents|] == incidents;
  }

  // The calls that neither write the status nor touch the incidents.
  lemma OtherCallsLeave(s: State, a: Action)
    requires a.Call? && a.w in s.workers
    requires var pc := s.workers[a.w]; !pc.Writing? && !pc.Creating? && !pc.Resolving?
    ensures Step(s, a).status == s.status && Step(s, a).incidents == s.incidents
  {
  }

  lemma WriteLeaves(s: State, a: Action)
    requires a.Call? && a.w in s.workers && s.workers[a.w].Writing?
    ensures Step(s, a).incidents == s.incidents
    ensures Step(s, a).status == if a.reply.Bad? then s.status else if s.workers[a.w].up then Up else Down
  {
  }

  lemma CreateLeaves(s: State, a: Action)
    requires a.Call? && a.w in s.workers && s.workers[a.w].Creating?
    ensures Step(s, a).status == s.status
    ensures Newest(Step(s, a).incidents).Some? <==> Newest(s.incidents).Some? || !a.reply.Bad?
  {
    NewestAppended(s.incidents, Incident(false, true, s.workers[a.w].threshold));
  }

  lemma ResolveLeaves(s: State, a: Action)
    requires a.Call? && a.w in s.workers && s.workers[a.w].Resolving?
    ensures Step(s, a).status == s.status
    ensures Newest(s.incidents).None? ==> Newest(Step(s, a).incidents).None?
  {
    if Newest(s.incidents).None? { CloseOfNone(s, s.workers[a.w].id); }
  }

  lemma CallOpensExactly(s: State, a: Action)
    requires a.Call? && a.w in s.workers && !OpenWhileUp(s)
    ensures OpenWhileUp(Step(s, a)) <==> Opens(s, a)
  {
    var pc := s.workers[a.w];
    if pc.Writing? {
      WriteLeaves(s, a);
    } else if pc.Creating? {
      CreateLeaves(s, a);
    } else if pc.Resolving? {
      ResolveLeaves(s, a);
    } else {
      OtherCallsLeave(s, a);
    }
  }

  /** A step puts a monitor that is up beside an open incident exactly when it is one of three: an
      incident is created although the monitor is up, up is written although an incident is open, or a
      user opens an incident while the monitor is up. */
  lemma OpensExactly(s: State, a: Action)
    requires !OpenWhileUp(s)
    ensures OpenWhileUp(Step(s, a)) <==> Opens(s, a)
  {
    if a.Call? && a.w in s.workers {
      CallOpensExactly(s, a);
    } else if a.OpenByHand? {
      NewestAppended(s.incidents, Incident(true, true, 0));
    } else if a.CloseByHand? && Newest(s.incidents).None? {
      CloseOfNone(s, a.id);
    }
  }

  /** And it ends exactly when that incident is closed or down is written. */
  lemma ClosesExactly(s: State, a: Action)
    requires OpenWhileUp(s) && OneOpen(s.incidents)
    ensures !OpenWhileUp(Step(s, a)) <==> Closes(s, a)
  {
    match a {
      case Call(w, _, _, _) =>
        if w in s.workers && s.workers[w].Resolving? { CloseEmpties(s, s.workers[w].id); }
      case CloseByHand(id) => CloseEmpties(s, id);
      case _ =>
    }
  }

  /** The steps among these that no recovery follows up: an incident created although the monitor is up,
      up written over an open incident by a success that had not read down, an incident opened by hand. */
  predicate Strands(s: State, a: Action) {
    CreatesWhileUp(s, a) || HandWhileUp(s, a) || (WritesUpOverOpen(s, a) && !s.workers[a.w].previous.Down?)
  }

  // ---- Runs ----

  // `stranding` asks for a step that no recovery follows up.
  ghost predicate OpensAt(s: State, acts: seq<Action>, k: nat, stranding: bool)
    requires k < |acts|
  {
    var t := Exec(s, acts[..k]);
    if stranding then Strands(t, acts[k]) else Opens(t, acts[k])
  }

  ghost predicate ClosesAt(s: State, acts: seq<Action>, k: nat)
    requires k < |acts|
  {
    Closes(Exec(s, acts[..k]), acts[k])
  }

  // Step `k` begins it, and nothing up to `n` ends it.
  ghost predicate LastsFrom(s: State, acts: seq<Action>, k: nat, n: nat, stranding: bool)
    requires k < n <= |acts|
  {
    OpensAt(s, acts, k, stranding) && forall l :: k < l < n ==> !ClosesAt(s, acts, l)
  }

  ghost predicate Lasts(s: State, acts: seq<Action>, n: nat, stranding: bool)
    requires n <= |acts|
  {
    exists k :: 0 <= k < n && LastsFrom(s, acts, k, n, stranding)
  }

  lemma LastsNext(s: State, acts: seq<Action>, n: nat, stranding: bool)
    requires n < |acts|
    ensures Lasts(s, acts, n + 1, stranding) <==>
            OpensAt(s, acts, n, stranding) || (Lasts(s, acts, n, stranding) && !ClosesAt(s, acts, n))
  {
    if OpensAt(s, acts, n, stranding) {
      assert LastsFrom(s, acts, n, n + 1, stranding);
    } else if Lasts(s, acts, n, stranding) && !ClosesAt(s, acts, n) {
      var k :| 0 <= k < n && LastsFrom(s, acts, k, n, stranding);
      assert LastsFrom(s, acts, k, n + 1, stranding);
    }
    if Lasts(s, acts, n + 1, stranding) {
      var k :| 0 <= k < n + 1 && LastsFrom(s, acts, k, n + 1, stranding);
      if k < n { assert LastsFrom(s, acts, k, n, stranding); }
    }
  }

  lemma {:induction false} RunOneOpen(s: State, acts: seq<Action>, n: nat)
    requires Initial(s) && n <= |acts|
    ensures OneOpen(Exec(s, acts[..n]).incidents)
  {
    if n > 0 {
      RunOneOpen(s, acts, n - 1);
      ExecNext(s, acts, n - 1);
      StepKeepsOneOpen(Exec(s, acts[..n - 1]), acts[n - 1]);
    } else {
      assert acts[..0] == [];
    }
  }

  // The step before decides: it begins it, or it goes on.
  lemma GoesOn(s: State, a: Action)
    requires OneOpen(s.incidents)
    ensures OpenWhileUp(Step(s, a)) <==> Opens(s, a) || (OpenWhileUp(s) && !Closes(s, a))
  {
    if OpenWhileUp(s) {
      ClosesExactly(s, a);
      if Opens(s, a) { NewestIsOpen(s.incidents); }
    } else {
      OpensExactly(s, a);
    }
  }

  /** After any run, with any failures, an incident is open on a monitor that is up exactly when one of
      the three steps came and nothing has closed the incident or written down since. */
  lemma {:induction false} OpenWhileUpExactly(s: State, acts: seq<Action>, n: nat)
    requires Initial(s) && n <= |acts|
    ensures OpenWhileUp(Exec(s, acts[..n])) <==> Lasts(s, acts, n, false)
  {
    if n == 0 {
      assert acts[..0] == [];
    } else {
      OpenWhileUpExactly(s, acts, n - 1);
      RunOneOpen(s, acts, n - 1);
      ExecNext(s, acts, n - 1);
      GoesOn(Exec(s, acts[..n - 1]), acts[n - 1]);
      LastsNext(s, acts, n - 1, false);
    }
  }

  /** A run never shows it exactly when it takes none of the three steps. */
  lemma NeverOpenWhileUpExactly(s: State, acts: seq<Action>)
    requires Initial(s)
    ensures (forall n :: 0 <= n <= |acts| ==> !OpenWhileUp(Exec(s, acts[..n]))) <==>
            (forall k :: 0 <= k < |acts| ==> !OpensAt(s, acts, k, false))
  {
    forall n | 0 <= n <= |acts| ensures OpenWhileUp(Exec(s, acts[..n])) <==> Lasts(s, acts, n, false) {
      OpenWhileUpExactly(s, acts, n);
    }
    forall k | 0 <= k < |acts| && OpensAt(s, acts, k, false) ensures OpenWhileUp(Exec(s, acts[..k + 1])) {
      LastsNext(s, acts, k, false);
    }
  }

  // ---- Without faults ----

  // A recovery is on its way to the open incident.
  ghost predicate BeingClosed(s: State) {
    exists w :: w in s.workers && Approaches(s, s.workers[w])
  }

  predicate Approaches(s: State, pc: Pc) {
    pc.Finding? || (pc.Resolving? && Newest(s.incidents) == Some(pc.id))
  }

  lemma GoodStepApproaches(s: State, a: Action)
    requires (a.Call? ==> a.reply.Good?) && OneOpen(s.incidents)
    requires OpenWhileUp(s) && !Closes(s, a) && BeingClosed(s)
    ensures BeingClosed(Step(s, a))
  {
    var s' := Step(s, a);
    ClosesExactly(s, a);
    NewestStays(s, a);
    var w :| w in s.workers && Approaches(s, s.workers[w]);
    assert w in s'.workers && Approaches(s', s'.workers[w]);
  }

  // The open incident stays the newest one as long as it is not closed.
  lemma NewestStays(s: State, a: Action)
    requires OneOpen(s.incidents) && OpenWhileUp(s) && !Closes(s, a)
    ensures Newest(Step(s, a).incidents) == Newest(s.incidents)
  {
    var s' := Step(s, a);
    ClosesExactly(s, a);
    StepKeepsOneOpen(s, a);
    NewestIsOpen(s.incidents);
    NewestIsOpen(s'.incidents);
    var k := Newest(s.incidents).value;
    assert |s'.incidents| == |s.incidents|;
    assert forall j :: 0 <= j < |s.incidents| && s'.incidents[j].open ==> s.incidents[j].open;
  }

  // An opening step that is not stranding is a success that read down, whose recovery follows.
  lemma OpenedIsBeingClosed(s: State, a: Action)
    requires (a.Call? ==> a.reply.Good?) && Opens(s, a) && !Strands(s, a)
    ensures BeingClosed(Step(s, a))
  {
    assert a.w in Step(s, a).workers && Approaches(Step(s, a), Step(s, a).workers[a.w]);
  }

  lemma StrandedOrBeingClosedNext(s: State, a: Action, stranded: bool)
    requires (a.Call? ==> a.reply.Good?) && OneOpen(s.incidents)
    requires OpenWhileUp(s) ==> stranded || BeingClosed(s)
    ensures OpenWhileUp(Step(s, a)) ==> Strands(s, a) || (stranded && !Closes(s, a)) || BeingClosed(Step(s, a))
  {
    GoesOn(s, a);
    if Opens(s, a) {
      if !Strands(s, a) { OpenedIsBeingClosed(s, a); }
    } else if OpenWhileUp(s) && !Closes(s, a) && !stranded {
      GoodStepApproaches(s, a);
    }
  }

  lemma {:induction false} StrandedOrBeingClosed(s: State, acts: seq<Action>, n: nat)
    requires Initial(s) && AllGood(acts) && n <= |acts|
    ensures OpenWhileUp(Exec(s, acts[..n])) ==> Lasts(s, acts, n, true) || BeingClosed(Exec(s, acts[..n]))
  {
    if n == 0 {
      assert acts[..0] == [];
    } else {
      StrandedOrBeingClosed(s, acts, n - 1);
      RunOneOpen(s, acts, n - 1);
      ExecNext(s, acts, n - 1);
      LastsNext(s, acts, n - 1, true);
      StrandedOrBeingClosedNext(Exec(s, acts[..n - 1]), acts[n - 1], Lasts(s, acts, n - 1, true));
    }
  }

  lemma StrandingOpens(s: State, acts: seq<Action>, n: nat)
    requires n <= |acts| && Lasts(s, acts, n, true)
    ensures Lasts(s, acts, n, false)
  {
    var k :| 0 <= k < n && LastsFrom(s, acts, k, n, true);
    assert LastsFrom(s, acts, k, n, false);
  }

  /** When every call succeeds and nothing is under way, an incident is left open on a monitor that is up
      exactly when a stranding step came and nothing has ended it since. So the recovery that follows a
      success which read down leaves it only by a failing call. */
  lemma LeftOpenExactly(s: State, acts: seq<Action>)
    requires Initial(s) && AllGood(acts) && AtRest(Exec(s, acts))
    ensures OpenWhileUp(Exec(s, acts)) <==> Lasts(s, acts, |acts|, true)
  {
    var n := |acts|;
    assert acts[..n] == acts;
    OpenWhileUpExactly(s, acts, n);
    StrandedOrBeingClosed(s, acts, n);
    if Lasts(s, acts, n, true) { StrandingOpens(s, acts, n); }
  }

  // ---- By a fault ----

  // No check fails, and no user acts.
  predicate OnlySuccesses(acts: seq<Action>) {
    forall k :: 0 <= k < |acts| ==> acts[k].Call? || (acts[k].Start? && acts[k].up)
  }

  ghost predicate Stuck(s: State, incidents: seq<Incident>, alerts: seq<Alert>) {
    && s == State(s.results, Up, s.flips, incidents, alerts, s.workers)
    && forall w :: w in s.workers ==> Harmless(s.workers[w])
  }

  predicate Harmless(pc: Pc) {
    pc.Finished? || ((pc.Inserting? || pc.Updating?) && pc.up) || (pc.Writing? && pc.up && pc.previous.Up?)
  }

  /** A single worker is enough: its success is written, and its call to close the incident fails. */
  lemma FailedResolveLeavesOpen(s: State, w: WorkerId, place: nat, yes: bool)
    requires w in s.workers && s.workers[w].Resolving? && OpenWhileUp(s)
    requires forall v :: v in s.workers && v != w ==> s.workers[v].Finished?
    ensures var t := Step(s, Call(w, Bad, place, yes)); OpenWhileUp(t) && AtRest(t)
  {
  }

  /** What is left open at rest stays so through any number of successes, whatever becomes of their calls:
      each finds the monitor up already. */
  lemma {:induction false} SuccessesChangeNothing(s: State, acts: seq<Action>)
    requires AtRest(s) && OpenWhileUp(s) && OnlySuccesses(acts)
    ensures OpenWhileUp(Exec(s, acts)) && Stuck(Exec(s, acts), s.incidents, s.alerts)
  {
    if acts != [] {
      var n := |acts| - 1;
      assert forall k :: 0 <= k < n ==> acts[..n][k] == acts[k];
      SuccessesChangeNothing(s, acts[..n]);
      var t := Exec(s, acts[..n]);
      assert acts[n].Call? || (acts[n].Start? && acts[n].up);
      if acts[n].Call? && acts[n].w in t.workers { assert Harmless(t.workers[acts[n].w]); }
    }
  }

  // ---- Without a fault ----

  // One failed check, whose worker stands at `pc`.
  function OneFailure(pc: Pc): State { State([false], Down, 0, [], [], map[0 := pc]) }

  lemma FirstFailure()
    ensures Reachable(OneFailure(Counting(1)))
  {
    StartReachable();
    var s := Go(EMPTY, Start(0, false, 1));
    s := Go(s, Next(0, 0));
    assert s.results == [false];
    s := Go(s, Next(0, 0));
    s := Go(s, Next(0, 0));
    assert s == OneFailure(Counting(1));
  }

  // It has passed every question and is about to open its incident.
  lemma SlowFailure()
    ensures Reachable(OneFailure(Creating(1)))
  {
    FirstFailure();
    assert TrailingFailures([false]) == 1 by { assert [false][..0] == []; }
    var s := Go(OneFailure(Counting(1)), Next(0, 0));
    s := Go(s, Next(0, 0));
    s := Go(s, Next(0, 0));
    assert s == OneFailure(Creating(1));
  }

  // A success comes later, whose worker stands at `pc`.
  function Overtaking(status: Status, flips: nat, pc: Pc): State {
    State([false, true], status, flips, [], [], map[0 := Creating(1), 1 := pc])
  }

  lemma SuccessReadsDown()
    ensures Reachable(Overtaking(Down, 0, Writing(true, 1, Down)))
  {
    SlowFailure();
    var s := Go(OneFailure(Creating(1)), Start(1, true, 1));
    s := Go(s, Next(1, 1));
    assert s.results == [false, true];
    s := Go(s, Next(1, 0));
    assert s == Overtaking(Down, 0, Writing(true, 1, Down));
  }

  // It is written, and finds nothing to close.
  lemma SuccessOvertakes()
    ensures Reachable(Overtaking(Up, 1, Finished))
  {
    SuccessReadsDown();
    var s := Go(Overtaking(Down, 0, Writing(true, 1, Down)), Next(1, 0));
    s := Go(s, Next(1, 0));
    assert s == Overtaking(Up, 1, Finished);
  }

  /** A success overtakes a slow failure, which opens its incident afterwards; nothing has failed, nothing
      is under way, and the incident stays open. */
  lemma OvertakenFailureLeavesOpen()
    ensures exists s :: Reachable(s) && AtRest(s) && OpenWhileUp(s)
  {
    SuccessOvertakes();
    var s := Go(Overtaking(Up, 1, Finished), Next(0, 0));
    assert s.incidents == [Incident(false, true, 1)];
    s := Go(s, Next(0, 0));
    assert s.workers == map[0 := Finished, 1 := Finished];
    assert OpenWhileUp(s);
  }

  // ---- By a single fault ----

  // One worker has processed a failure, and has announced its incident.
  const ANNOUNCED := State([false], Down, 0, [Incident(false, true, 1)], [DownAlert(0)], map[0 := Finished])

  lemma DownAnnounced()
    ensures Reachable(ANNOUNCED)
  {
    SlowFailure();
    var s := Go(OneFailure(Creating(1)), Next(0, 0));
    assert s.incidents == [Incident(false, true, 1)];
    s := Go(s, Next(0, 0));
    assert s == ANNOUNCED;
  }

  // The only worker is about to close the incident; it is left open if that call fails.
  predicate OneFaultAway(s: State) {
    && s.workers == map[0 := Resolving(0)]
    && var t := Step(s, Call(0, Bad, 0, false)); AtRest(t) && OpenWhileUp(t)
  }

  /** One worker, and one call that fails, are enough: it processes a failure and then a success, every
      call succeeding but the last, which closes the incident. */
  lemma OneFaultLeavesOpen()
    ensures exists s :: Reachable(s) && OneFaultAway(s)
  {
    DownAnnounced();
    var s := Go(ANNOUNCED, Start(0, true, 1));
    s := Go(s, Next(0, 1));
    s := Go(s, Next(0, 0));
    s := Go(s, Next(0, 0));
    s := Go(s, Next(0, 0));
    assert s.workers == map[0 := Resolving(0)];
    FailedResolveLeavesOpen(s, 0, 0, false);
    assert OneFaultAway(s);
  }
}
