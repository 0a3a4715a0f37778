/** What recoveries announce when checks interleave: how many up alerts there can be, and which
    incidents they name. */
module IncidentRecovery {
  import opened Wrappers
  import opened IncidentSerial
  import opened IncidentConcurrent

  predicate Recovering(pc: Pc) { pc.Finding? || pc.Resolving? || pc.PublishingUp? }

  function Recoveries(s: State): set<WorkerId> { set w | w in s.workers && Recovering(s.workers[w]) }

  function CountUps(alerts: seq<Alert>): nat {
    if alerts == [] then 0
    else CountUps(alerts[..|alerts| - 1]) + (if alerts[|alerts| - 1].UpAlert? then 1 else 0)
  }

  // ---- How many up alerts ----

  /** An UpdateStatus to up that read down and is heard of: it starts a recovery. */
  predicate StartsRecovery(s: State, a: Action) {
    a.Call? && a.reply.Good? && a.w in s.workers &&
    s.workers[a.w].Writing? && s.workers[a.w].up && s.workers[a.w].previous.Down?
  }

  // Its row is no longer down: another success wrote between its read and its write.
  predicate Overtaken(s: State, a: Action) { StartsRecovery(s, a) && !s.status.Down? }

  predicate Flips(s: State, a: Action) {
    a.Call? && !a.reply.Bad? && a.w in s.workers && s.workers[a.w].Writing? && s.workers[a.w].up && s.status.Down?
  }

  // One call as far as recoveries go.
  lemma CallMoves(s: State, w: WorkerId, reply: Reply, place: nat, yes: bool)
    requires w in s.workers
    ensures var a := Call(w, reply, place, yes);
            var s' := Step(s, a);
            var was := s.workers[w];
            && w in s'.workers && s'.workers == s.workers[w := s'.workers[w]]
            && (Recovering(s'.workers[w]) <==> StartsRecovery(s, a) || (reply.Good? && StillRecovering(s, was)))
            && s'.alerts == s.alerts + (if reply.Bad? then [] else Publishes(was))
            && s'.flips == s.flips + (if Flips(s, a) then 1 else 0)
  {
  }

  predicate StillRecovering(s: State, pc: Pc) { pc.Resolving? || (pc.Finding? && Newest(s.incidents).Some?) }

  // Every other step leaves the recoveries, the alerts and the flips alone.
  lemma OthersLeave(s: State, a: Action)
    requires !(a.Call? && a.w in s.workers)
    ensures var s' := Step(s, a); Recoveries(s') == Recoveries(s) && s'.alerts == s.alerts && s'.flips == s.flips
  {
  }

  // How far the up alerts, published and under way, outnumber the moves from down to up.
  function Surplus(s: State): int { CountUps(s.alerts) + |Recoveries(s)| - s.flips }

  lemma CountMoves(s: State, a: Action)
    ensures var before := CountUps(s.alerts) + |Recoveries(s)|;
            var after := CountUps(Step(s, a).alerts) + |Recoveries(Step(s, a))|;
            && (StartsRecovery(s, a) ==> after == before + 1)
            && (!StartsRecovery(s, a) ==> after <= before)
            && Step(s, a).flips == s.flips + (if Flips(s, a) then 1 else 0)
  {
    if a.Call? && a.w in s.workers {
      CallMoves(s, a.w, a.reply, a.place, a.yes);
      var s', was := Step(s, a), s.workers[a.w];
      UpsAppended(s.alerts, if a.reply.Bad? then [] else Publishes(was));
      OneRecoveryMoves(s, s', a.w);
    } else {
      OthersLeave(s, a);
    }
  }

  lemma OneRecoveryMoves(s: State, s': State, w: WorkerId)
    requires w in s.workers && w in s'.workers && s'.workers == s.workers[w := s'.workers[w]]
    ensures var was, now := Recovering(s.workers[w]), Recovering(s'.workers[w]);
            |Recoveries(s')| == |Recoveries(s)| - (if was then 1 else 0) + (if now then 1 else 0)
  {
    var others := Recoveries(s) - {w};
    assert Recoveries(s) == if Recovering(s.workers[w]) then others + {w} else others;
    assert Recoveries(s') == if Recovering(s'.workers[w]) then others + {w} else others;
  }

  lemma UpsAppended(alerts: seq<Alert>, more: seq<Alert>)
    requires |more| <= 1
    ensures CountUps(alerts + more) == CountUps(alerts) + (if more != [] && more[0].UpAlert? then 1 else 0)
  {
    if more == [] {
      assert alerts + more == alerts;
    } else {
      assert (alerts + more)[..|alerts|] == alerts;
    }
  }

  /** The bound by the moves from down to up breaks exactly at an overtaken write with nothing to spare. */
  lemma FlipBoundBreaksExactly(s: State, a: Action)
    requires Surplus(s) <= 0
    ensures Surplus(Step(s, a)) > 0 <==> Overtaken(s, a) && Surplus(s) == 0
  {
    CountMoves(s, a);
  }

  function CountStarts(s: State, acts: seq<Action>): nat {
    if acts == [] then 0
    else
      var n := |acts| - 1;
      CountStarts(s, acts[..n]) + (if StartsRecovery(Exec(s, acts[..n]), acts[n]) then 1 else 0)
  }

  function CountOvertaken(s: State, acts: seq<Action>): nat {
    if acts == [] then 0
    else
      var n := |acts| - 1;
      CountOvertaken(s, acts[..n]) + (if Overtaken(Exec(s, acts[..n]), acts[n]) then 1 else 0)
  }

  /** In every run the up alerts are at most the successes that read down, and exceed the moves of the
      status from down to up by no more than the overtaken ones among them. */
  lemma {:induction false} UpAlertsBounded(s: State, acts: seq<Action>)
    requires Initial(s)
    ensures var t := Exec(s, acts);
            && CountUps(t.alerts) + |Recoveries(t)| <= CountStarts(s, acts)
            && CountUps(t.alerts) + |Recoveries(t)| <= t.flips + CountOvertaken(s, acts)
  {
    if acts == [] {
      assert Recoveries(s) == {};
    } else {
      UpAlertsBounded(s, acts[..|acts| - 1]);
      CountMoves(Exec(s, acts[..|acts| - 1]), acts[|acts| - 1]);
    }
  }

  ghost predicate NoneOvertaken(s: State, acts: seq<Action>) {
    forall k :: 0 <= k < |acts| ==> !Overtaken(Exec(s, acts[..k]), acts[k])
  }

  lemma {:induction false} NoneCounted(s: State, acts: seq<Action>)
    requires NoneOvertaken(s, acts)
    ensures CountOvertaken(s, acts) == 0
  {
    if acts != [] {
      var n := |acts| - 1;
      forall k | 0 <= k < n ensures acts[..n][..k] == acts[..k] { }
      NoneCounted(s, acts[..n]);
    }
  }

  /** Without overtaken writes, in particular when UpdateStatus is one atomic step, there are never more
      up alerts than moves of the status from down to up. */
  lemma {:induction false} UpAlertsAtMostFlips(s: State, acts: seq<Action>)
    requires Initial(s) && NoneOvertaken(s, acts)
    ensures CountUps(Exec(s, acts).alerts) <= Exec(s, acts).flips
  {
    UpAlertsBounded(s, acts);
    NoneCounted(s, acts);
  }

  ghost predicate BoundKept(s: State, acts: seq<Action>) {
    forall k :: 0 <= k <= |acts| ==> Surplus(Exec(s, acts[..k])) <= 0
  }

  // The write that breaks the bound.
  predicate Breaks(s: State, a: Action) { Overtaken(s, a) && Surplus(s) == 0 }

  ghost predicate NoneBreaks(s: State, acts: seq<Action>) {
    forall k :: 0 <= k < |acts| ==> !Breaks(Exec(s, acts[..k]), acts[k])
  }

  lemma {:induction false} KeptUpTo(s: State, acts: seq<Action>, k: nat)
    requires Initial(s) && NoneBreaks(s, acts) && k <= |acts|
    ensures Surplus(Exec(s, acts[..k])) <= 0
  {
    if k == 0 {
      assert acts[..0] == [] && Recoveries(s) == {};
    } else {
      KeptUpTo(s, acts, k - 1);
      ExecNext(s, acts, k - 1);
      FlipBoundBreaksExactly(Exec(s, acts[..k - 1]), acts[k - 1]);
    }
  }

  /** A run keeps the bound on the up alerts, published and under way, all along exactly when none of its
      writes is overtaken with nothing to spare. */
  lemma FlipBoundKeptExactly(s: State, acts: seq<Action>)
    requires Initial(s)
    ensures BoundKept(s, acts) <==> NoneBreaks(s, acts)
  {
    if BoundKept(s, acts) {
      forall k | 0 <= k < |acts| ensures !Breaks(Exec(s, acts[..k]), acts[k]) {
        ExecNext(s, acts, k);
        FlipBoundBreaksExactly(Exec(s, acts[..k]), acts[k]);
      }
    } else if NoneBreaks(s, acts) {
      forall k | 0 <= k <= |acts| ensures Surplus(Exec(s, acts[..k])) <= 0 {
        KeptUpTo(s, acts, k);
      }
    }
  }

  // ---- The published ones alone ----

  // A recovery that has found its incident: nothing but a fault keeps its alert from being published.
  predicate Announcing(pc: Pc) { pc.Resolving? || pc.PublishingUp? }

  function Announcements(s: State): set<WorkerId> { set w | w in s.workers && Announcing(s.workers[w]) }

  predicate FindsOne(s: State, a: Action) {
    a.Call? && a.reply.Good? && a.w in s.workers && s.workers[a.w].Finding? && Newest(s.incidents).Some?
  }

  lemma CallAnnounces(s: State, w: WorkerId, reply: Reply, place: nat, yes: bool)
    requires w in s.workers
    ensures var a := Call(w, reply, place, yes);
            Announcing(Step(s, a).workers[w]) <==> FindsOne(s, a) || (reply.Good? && s.workers[w].Resolving?)
  {
  }

  lemma OneAnnouncementMoves(s: State, s': State, w: WorkerId)
    requires w in s.workers && w in s'.workers && s'.workers == s.workers[w := s'.workers[w]]
    ensures var was, now := Announcing(s.workers[w]), Announcing(s'.workers[w]);
            |Announcements(s')| == |Announcements(s)| - (if was then 1 else 0) + (if now then 1 else 0)
  {
    var others := Announcements(s) - {w};
    assert Announcements(s) == if Announcing(s.workers[w]) then others + {w} else others;
    assert Announcements(s') == if Announcing(s'.workers[w]) then others + {w} else others;
  }

  // A find adds one; a call that succeeds loses none.
  lemma FindsMove(s: State, a: Action)
    ensures var before := CountUps(s.alerts) + |Announcements(s)|;
            var after := CountUps(Step(s, a).alerts) + |Announcements(Step(s, a))|;
            && after <= before + (if FindsOne(s, a) then 1 else 0)
            && ((a.Call? ==> a.reply.Good?) ==> after == before + (if FindsOne(s, a) then 1 else 0))
  {
    if a.Call? && a.w in s.workers {
      CallMoves(s, a.w, a.reply, a.place, a.yes);
      CallAnnounces(s, a.w, a.reply, a.place, a.yes);
      UpsAppended(s.alerts, if a.reply.Bad? then [] else Publishes(s.workers[a.w]));
      OneAnnouncementMoves(s, Step(s, a), a.w);
    } else {
      assert Announcements(Step(s, a)) == Announcements(s);
    }
  }

  function CountFinds(s: State, acts: seq<Action>): nat {
    if acts == [] then 0
    else
      var n := |acts| - 1;
      CountFinds(s, acts[..n]) + (if FindsOne(Exec(s, acts[..n]), acts[n]) then 1 else 0)
  }

  /** The up alerts published are never more than the recoveries that read an open incident; and when
      every call succeeds and nothing is under way, exactly as many. */
  lemma {:induction false} PublishedUpsAreFinds(s: State, acts: seq<Action>)
    requires Initial(s)
    ensures var t := Exec(s, acts);
            && CountUps(t.alerts) + |Announcements(t)| <= CountFinds(s, acts)
            && (AllGood(acts) ==> CountUps(t.alerts) + |Announcements(t)| == CountFinds(s, acts))
            && (AllGood(acts) && AtRest(t) ==> CountUps(t.alerts) == CountFinds(s, acts))
  {
    if acts == [] {
      assert Announcements(s) == {};
    } else {
      var n := |acts| - 1;
      PublishedUpsAreFinds(s, acts[..n]);
      FindsMove(Exec(s, acts[..n]), acts[n]);
      assert AllGood(acts) ==> AllGood(acts[..n]) && (acts[n].Call? ==> acts[n].reply.Good?);
      assert AtRest(Exec(s, acts)) ==> Announcements(Exec(s, acts)) == {};
    }
  }

  // ---- Which incidents ----

  /** A recovery reads `id` as the newest open incident. */
  predicate Finds(s: State, a: Action, id: nat) {
    && a.Call? && a.reply.Good? && a.w in s.workers && s.workers[a.w].Finding?
    && Newest(s.incidents) == Some(id)
  }

  /** Exactly at such a read a worker turns to resolving the incident; who opened it is not asked. */
  lemma RecoveryTakesExactly(s: State, a: Action, w: WorkerId, id: nat)
    requires !(w in s.workers && s.workers[w] == Resolving(id))
    ensures var s' := Step(s, a);
            w in s'.workers && s'.workers[w] == Resolving(id) <==> Finds(s, a, id) && a.w == w
  {
    if a.Call? && a.w in s.workers { CallMoves(s, a.w, a.reply, a.place, a.yes); }
  }

  // Within the first `n` steps.
  ghost predicate Found(s: State, acts: seq<Action>, n: nat, id: nat)
    requires n <= |acts|
  {
    exists k :: 0 <= k < n && FindsAt(s, acts, k, id)
  }

  ghost predicate FindsAt(s: State, acts: seq<Action>, k: nat, id: nat)
    requires k < |acts|
  {
    Finds(Exec(s, acts[..k]), acts[k], id)
  }

  predicate About(pc: Pc, id: nat) { pc == Resolving(id) || pc == PublishingUp(id) }

  // Everything a recovery does is about an incident that was found.
  ghost predicate OnlyFound(s: State, acts: seq<Action>, n: nat, id: nat)
    requires n <= |acts|
  {
    var t := Exec(s, acts[..n]);
    && (UpAlert(id) in t.alerts ==> Found(s, acts, n, id))
    && (forall w :: w in t.workers && About(t.workers[w], id) ==> Found(s, acts, n, id))
  }

  // One step as far as the recovery of `id` goes.
  lemma AboutMoves(s: State, a: Action, id: nat)
    ensures var s' := Step(s, a);
            && (forall w :: w in s'.workers && About(s'.workers[w], id) ==>
                  (w in s.workers && About(s.workers[w], id)) || Finds(s, a, id))
            && (UpAlert(id) in s'.alerts ==>
                  UpAlert(id) in s.alerts || exists w :: w in s.workers && About(s.workers[w], id))
  {
    if a.Call? && a.w in s.workers { CallMoves(s, a.w, a.reply, a.place, a.yes); }
  }

  lemma {:induction false} RunOnlyFound(s: State, acts: seq<Action>, n: nat, id: nat)
    requires Initial(s) && n <= |acts|
    ensures OnlyFound(s, acts, n, id)
  {
    if n == 0 {
      assert acts[..0] == [];
    } else {
      RunOnlyFound(s, acts, n - 1, id);
      ExecNext(s, acts, n - 1);
      AboutMoves(Exec(s, acts[..n - 1]), acts[n - 1], id);
      if Finds(Exec(s, acts[..n - 1]), acts[n - 1], id) { assert FindsAt(s, acts, n - 1, id); }
    }
  }

  // ---- Runs in which every call succeeds ----

  predicate AllGood(acts: seq<Action>) { forall k :: 0 <= k < |acts| && acts[k].Call? ==> acts[k].reply.Good? }

  predicate AtRest(s: State) { forall w :: w in s.workers ==> s.workers[w].Finished? }

  ghost predicate Announced(s: State, id: nat) {
    UpAlert(id) in s.alerts || exists w :: w in s.workers && About(s.workers[w], id)
  }

  lemma GoodStepAnnounces(s: State, a: Action, id: nat)
    requires a.Call? ==> a.reply.Good?
    requires Announced(s, id) || Finds(s, a, id)
    ensures Announced(Step(s, a), id)
  {
    var s' := Step(s, a);
    if a.Call? && a.w in s.workers { CallMoves(s, a.w, a.reply, a.place, a.yes); }
    if UpAlert(id) in s.alerts {
    } else if Finds(s, a, id) {
      assert About(s'.workers[a.w], id);
    } else {
      var w :| w in s.workers && About(s.workers[w], id);
      if a.Call? && a.w == w {
        if s.workers[w].PublishingUp? {
          assert UpAlert(id) in Publishes(s.workers[w]);
        } else {
          assert About(s'.workers[w], id);
        }
      } else {
        assert About(s'.workers[w], id);
      }
    }
  }

  lemma {:induction false} FoundIsAnnounced(s: State, acts: seq<Action>, n: nat, id: nat)
    requires AllGood(acts) && n <= |acts| && Found(s, acts, n, id)
    ensures Announced(Exec(s, acts[..n]), id)
  {
    var t, a := Exec(s, acts[..n - 1]), acts[n - 1];
    ExecNext(s, acts, n - 1);
    assert Announced(t, id) || Finds(t, a, id) by {
      if Found(s, acts, n - 1, id) {
        FoundIsAnnounced(s, acts, n - 1, id);
      } else {
        assert FindsAt(s, acts, n - 1, id);
      }
    }
    GoodStepAnnounces(t, a, id);
  }

  /** Only incidents that a recovery read as open are ever announced as recovered; and when every call
      succeeds and nothing is under way, those exactly, whether opened by a check or by hand. */
  lemma RecoveredExactly(s: State, acts: seq<Action>, id: nat)
    requires Initial(s)
    ensures UpAlert(id) in Exec(s, acts).alerts ==> Found(s, acts, |acts|, id)
    ensures AllGood(acts) && AtRest(Exec(s, acts)) ==>
              (UpAlert(id) in Exec(s, acts).alerts <==> Found(s, acts, |acts|, id))
  {
    assert acts[..|acts|] == acts;
    RunOnlyFound(s, acts, |acts|, id);
    if AllGood(acts) && Found(s, acts, |acts|, id) { FoundIsAnnounced(s, acts, |acts|, id); }
  }

  // ---- Incidents that were never announced as down ----

  /** The publish of the down alert of `id` takes effect. */
  predicate PublishesDown(s: State, a: Action, id: nat) {
    a.Call? && !a.reply.Bad? && a.w in s.workers && s.workers[a.w] == PublishingDown(id)
  }

  ghost predicate PublishedDown(s: State, acts: seq<Action>, n: nat, id: nat)
    requires n <= |acts|
  {
    exists k :: 0 <= k < n && PublishesDownAt(s, acts, k, id)
  }

  ghost predicate PublishesDownAt(s: State, acts: seq<Action>, k: nat, id: nat)
    requires k < |acts|
  {
    PublishesDown(Exec(s, acts[..k]), acts[k], id)
  }

  lemma DownAlertMoves(s: State, a: Action, id: nat)
    ensures DownAlert(id) in Step(s, a).alerts <==> DownAlert(id) in s.alerts || PublishesDown(s, a, id)
  {
    if a.Call? && a.w in s.workers { CallMoves(s, a.w, a.reply, a.place, a.yes); }
  }

  lemma {:induction false} DownAlertsAre(s: State, acts: seq<Action>, n: nat, id: nat)
    requires Initial(s) && n <= |acts|
    ensures DownAlert(id) in Exec(s, acts[..n]).alerts <==> PublishedDown(s, acts, n, id)
  {
    if n == 0 {
      assert acts[..0] == [];
    } else {
      DownAlertsAre(s, acts, n - 1, id);
      ExecNext(s, acts, n - 1);
      DownAlertMoves(Exec(s, acts[..n - 1]), acts[n - 1], id);
      if PublishesDown(Exec(s, acts[..n - 1]), acts[n - 1], id) { assert PublishesDownAt(s, acts, n - 1, id); }
    }
  }

  // Every automatic incident has its down alert, or a worker about to publish it.
  ghost predicate AutomaticAnnounced(s: State) {
    forall id :: 0 <= id < |s.incidents| && !s.incidents[id].manual ==>
      DownAlert(id) in s.alerts || exists w :: w in s.workers && s.workers[w] == PublishingDown(id)
  }

  lemma GoodStepKeepsAnnounced(s: State, a: Action, id: nat)
    requires (a.Call? ==> a.reply.Good?) && AutomaticAnnounced(s)
    requires id < |Step(s, a).incidents| && !Step(s, a).incidents[id].manual
    ensures var s' := Step(s, a);
            DownAlert(id) in s'.alerts || exists w :: w in s'.workers && s'.workers[w] == PublishingDown(id)
  {
    IncidentFounded(s, a, id);
    DownAlertMoves(s, a, id);
    var s' := Step(s, a);
    if id == |s.incidents| {
      assert s'.workers[a.w] == PublishingDown(id);
    } else if DownAlert(id) !in s'.alerts {
      var w :| w in s.workers && s.workers[w] == PublishingDown(id);
      assert s'.workers[w] == PublishingDown(id);
    }
  }

  lemma {:induction false} GoodRunAnnounces(s: State, acts: seq<Action>)
    requires Initial(s) && AllGood(acts)
    ensures AutomaticAnnounced(Exec(s, acts))
  {
    if acts != [] {
      var n := |acts| - 1;
      GoodRunAnnounces(s, acts[..n]);
      assert acts[n].Call? ==> acts[n].reply.Good?;
      var t := Exec(s, acts);
      forall id | 0 <= id < |t.incidents| && !t.incidents[id].manual
        ensures DownAlert(id) in t.alerts || exists w :: w in t.workers && t.workers[w] == PublishingDown(id)
      {
        GoodStepKeepsAnnounced(Exec(s, acts[..n]), acts[n], id);
      }
    }
  }

  /** An incident has no down alert exactly when it was opened by hand or the publish for it never took
      effect. When every call succeeds and nothing is under way, a recovery nobody had been told to
      expect is announced exactly for the incidents opened by hand that a recovery read as open. */
  lemma UnannouncedExactly(s: State, acts: seq<Action>, id: nat)
    requires Initial(s) && id < |Exec(s, acts).incidents|
    ensures var t := Exec(s, acts);
            && (DownAlert(id) !in t.alerts <==> t.incidents[id].manual || !PublishedDown(s, acts, |acts|, id))
            && (AllGood(acts) && AtRest(t) ==>
                  (UpAlert(id) in t.alerts && DownAlert(id) !in t.alerts <==>
                   t.incidents[id].manual && Found(s, acts, |acts|, id)))
  {
    assert acts[..|acts|] == acts;
    DownAlertsAre(s, acts, |acts|, id);
    ExecKeepsDownInv(s, acts);
    RecoveredExactly(s, acts, id);
    if AllGood(acts) { GoodRunAnnounces(s, acts); }
    var t := Exec(s, acts);
    if DownAlert(id) in t.alerts {
      var k :| 0 <= k < |t.alerts| && t.alerts[k] == DownAlert(id);
    }
  }

  lemma {:induction false} NoHandNoManual(s: State, acts: seq<Action>)
    requires Initial(s) && forall k :: 0 <= k < |acts| ==> !acts[k].OpenByHand?
    ensures forall id :: 0 <= id < |Exec(s, acts).incidents| ==> !Exec(s, acts).incidents[id].manual
  {
    if acts != [] {
      var n := |acts| - 1;
      NoHandNoManual(s, acts[..n]);
      var r, t := Exec(s, acts[..n]), Exec(s, acts);
      forall id | 0 <= id < |t.incidents| ensures !t.incidents[id].manual {
        if t.incidents[id].manual { ManualComesFromHand(r, acts[n], id); }
      }
    }
  }

  lemma ManualComesFromHand(s: State, a: Action, id: nat)
    requires id < |Step(s, a).incidents| && Step(s, a).incidents[id].manual
    ensures (id < |s.incidents| && s.incidents[id].manual) || a.OpenByHand?
  {
  }

  /** Unless users open incidents by hand, recoveries announce only incidents opened by checks. */
  lemma WithoutHandsOnlyAutomatic(s: State, acts: seq<Action>, id: nat)
    requires Initial(s) && forall k :: 0 <= k < |acts| ==> !acts[k].OpenByHand?
    requires UpAlert(id) in Exec(s, acts).alerts
    ensures id < |Exec(s, acts).incidents| && !Exec(s, acts).incidents[id].manual
  {
    NoHandNoManual(s, acts);
    ExecKeepsDownInv(s, acts);
    var t := Exec(s, acts);
    var k :| 0 <= k < |t.alerts| && t.alerts[k] == UpAlert(id);
  }

  // ---- These things happen ----

  const EMPTY := State([], Unknown, 0, [], [], map[])

  // By a run in which every call succeeds.
  ghost predicate Reachable(s: State) { exists acts :: AllGood(acts) && Exec(EMPTY, acts) == s }

  lemma StartReachable()
    ensures Reachable(EMPTY)
  {
    assert Exec(EMPTY, []) == EMPTY;
  }

  lemma Go(s: State, a: Action) returns (s': State)
    requires Reachable(s) && (a.Call? ==> a.reply.Good?)
    ensures Reachable(s') && s' == Step(s, a)
  {
    var acts :| AllGood(acts) && Exec(EMPTY, acts) == s;
    assert (acts + [a])[..|acts|] == acts;
    s' := Step(s, a);
    assert AllGood(acts + [a]) && Exec(EMPTY, acts + [a]) == s';
  }

  function Next(w: WorkerId, place: nat): Action { Call(w, Good, place, false) }

  const BY_HAND := [Incident(true, true, 0)]

  // A failed check below its threshold, on a monitor with an incident opened by hand.
  lemma DownWithManual()
    ensures Reachable(State([false], Down, 0, BY_HAND, [], map[0 := Finished]))
  {
    StartReachable();
    var s := Go(EMPTY, OpenByHand);
    assert s.incidents == BY_HAND;
    s := Go(s, Start(0, false, 3));
    s := Go(s, Next(0, 0));
    assert s.results == [false];
    s := Go(s, Next(0, 0));
    s := Go(s, Next(0, 0));
    assert TrailingFailures([false]) == 1 by { assert [false][..0] == []; }
    s := Go(s, Next(0, 0));
    assert s == State([false], Down, 0, BY_HAND, [], map[0 := Finished]);
  }

  function Both(status: Status, flips: nat, incidents: seq<Incident>, alerts: seq<Alert>, pc: Pc): State {
    State([false, true, true], status, flips, incidents, alerts, map[0 := pc, 1 := pc])
  }

  // Two successes have both read down, and neither has written.
  lemma BothReadDown()
    ensures Reachable(Both(Down, 0, BY_HAND, [], Writing(true, 3, Down)))
  {
    DownWithManual();
    var s := Go(State([false], Down, 0, BY_HAND, [], map[0 := Finished]), Start(0, true, 3));
    s := Go(s, Start(1, true, 3));
    s := Go(s, Next(0, 1));
    s := Go(s, Next(1, 2));
    assert s.results == [false, true, true];
    s := Go(s, Next(0, 0));
    s := Go(s, Next(1, 0));
    assert s == Both(Down, 0, BY_HAND, [], Writing(true, 3, Down));
  }

  lemma BothResolving()
    ensures Reachable(Both(Up, 1, BY_HAND, [], Resolving(0)))
  {
    BothReadDown();
    var s := Go(Both(Down, 0, BY_HAND, [], Writing(true, 3, Down)), Next(0, 0));
    s := Go(s, Next(1, 0));
    s := Go(s, Next(0, 0));
    s := Go(s, Next(1, 0));
    assert s == Both(Up, 1, BY_HAND, [], Resolving(0));
  }

  /** One move from down to up can be announced twice, without any fault: both successes read down. */
  lemma {:induction false} TwoUpAlertsForOneFlip()
    ensures exists s :: Reachable(s) && AtRest(s) && s.flips == 1 && s.alerts == [UpAlert(0), UpAlert(0)]
  {
    BothResolving();
    var s := Go(Both(Up, 1, BY_HAND, [], Resolving(0)), Next(0, 0));
    s := Go(s, Next(1, 0));
    s := Go(s, Next(0, 0));
    s := Go(s, Next(1, 0));
    assert s.workers == map[0 := Finished, 1 := Finished];
    assert s.alerts == [UpAlert(0), UpAlert(0)];
  }
}
