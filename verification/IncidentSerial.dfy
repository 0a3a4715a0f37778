/** One monitor's checks processed one after the other without repository faults: the automaton of
    `ProcessCheckResult`, and the alert stream it produces as a function of the check history. */
module IncidentSerial {
  import opened Wrappers

  datatype Status = Unknown | Up | Down

  // HasActive may answer, or fail; a failure is logged and read as no maintenance.
  datatype Maintenance = Quiet | Ongoing | Failed

  /** One check as the service meets it: its result, the monitor's threshold at the time, and what
      the cooldown and maintenance queries answer. */
  datatype Check = Check(up: bool, threshold: int, cooldown: bool, maintenance: Maintenance)

  datatype Alert = DownAlert(id: nat) | UpAlert(id: nat)

  predicate Suppressed(c: Check) { c.cooldown || c.maintenance.Ongoing? }

  // ---- The automaton ----

  /** The rows of one monitor: its check results, its status, whether each of its incidents is open
      (the index is the id), and the alerts published so far. */
  datatype Rows = Rows(results: seq<bool>, status: Status, open: seq<bool>, alerts: seq<Alert>)

  const FRESH := Rows([], Unknown, [], [])

  // ConsecutiveFailures: the failed results after the latest success.
  function TrailingFailures(results: seq<bool>): nat {
    if results == [] || results[|results| - 1] then 0 else 1 + TrailingFailures(results[..|results| - 1])
  }

  // GetOpen: the newest incident that is not resolved.
  function OpenIncident(open: seq<bool>): Option<nat> {
    if open == [] then None
    else if open[|open| - 1] then Some(|open| - 1)
    else OpenIncident(open[..|open| - 1])
  }

  predicate NewestOpen(open: seq<bool>, id: nat) {
    id < |open| && open[id] && forall k :: id < k < |open| ==> !open[k]
  }

  lemma {:induction false} OpenIncidentFound(open: seq<bool>)
    ensures OpenIncident(open).Some? ==> NewestOpen(open, OpenIncident(open).value)
    ensures OpenIncident(open).None? ==> forall k :: 0 <= k < |open| ==> !open[k]
  {
    if open != [] { OpenIncidentFound(open[..|open| - 1]); }
  }

  lemma {:induction false} TrailingFailuresAre(results: seq<bool>)
    ensures var n := TrailingFailures(results);
            && n <= |results| && (forall k :: |results| - n <= k < |results| ==> !results[k])
            && (n < |results| ==> results[|results| - n - 1])
  {
    if results != [] && !results[|results| - 1] { TrailingFailuresAre(results[..|results| - 1]); }
  }

  function Process(r: Rows, c: Check): Rows {
    var r1 := r.(results := r.results + [c.up], status := if c.up then Up else Down);
    if !c.up then
      if TrailingFailures(r1.results) < c.threshold || Suppressed(c) || OpenIncident(r.open).Some? then r1
      else r1.(open := r.open + [true], alerts := r.alerts + [DownAlert(|r.open|)])
    else if r.status.Down? && OpenIncident(r.open).Some? then
      var id := OpenIncident(r.open).value;
      OpenIncidentFound(r.open);
      r1.(open := r.open[id := false], alerts := r.alerts + [UpAlert(id)])
    else r1
  }

  function ProcessAll(h: seq<Check>): Rows {
    if h == [] then FRESH else Process(ProcessAll(h[..|h| - 1]), h[|h| - 1])
  }

  // ---- The same stream read off the history ----

  // Where the run of failures that contains position `i` began.
  function RunStart(h: seq<Check>, i: nat): nat
    requires i < |h| && !h[i].up
  {
    if i == 0 || h[i - 1].up then i else RunStart(h, i - 1)
  }

  // An unsuppressed failure, at a position in its run that reaches the threshold.
  predicate Alertable(h: seq<Check>, i: nat)
    requires i < |h|
  {
    !h[i].up && !Suppressed(h[i]) && i - RunStart(h, i) + 1 >= h[i].threshold
  }

  predicate RunAlertedBy(h: seq<Check>, i: nat, end: nat)
    requires i < |h| && !h[i].up && end <= |h|
  {
    exists j :: RunStart(h, i) <= j < end && Alertable(h, j)
  }

  // The first such failure of its run.
  predicate DownAt(h: seq<Check>, i: nat)
    requires i < |h|
  {
    Alertable(h, i) && !RunAlertedBy(h, i, i)
  }

  // The success that ends a run with such a failure.
  predicate UpAt(h: seq<Check>, i: nat)
    requires i < |h|
  {
    h[i].up && i > 0 && !h[i - 1].up && RunAlertedBy(h, i - 1, i)
  }

  // Incidents are numbered in the order of the down alerts.
  function DownsBefore(h: seq<Check>, i: nat): nat
    requires i <= |h|
  {
    if i == 0 then 0 else DownsBefore(h, i - 1) + (if DownAt(h, i - 1) then 1 else 0)
  }

  function AlertAt(h: seq<Check>, i: nat): seq<Alert>
    requires i < |h|
  {
    if DownAt(h, i) then [DownAlert(DownsBefore(h, i))]
    else if UpAt(h, i) && DownsBefore(h, i) > 0 then [UpAlert(DownsBefore(h, i) - 1)]
    else []
  }

  function Stream(h: seq<Check>, n: nat): seq<Alert>
    requires n <= |h|
  {
    if n == 0 then [] else Stream(h, n - 1) + AlertAt(h, n - 1)
  }

  // ---- The two agree ----

  function Results(h: seq<Check>): seq<bool> { seq(|h|, k requires 0 <= k < |h| => h[k].up) }

  lemma {:induction false} TrailingFailuresIsRunLength(h: seq<Check>, i: nat)
    requires i < |h| && !h[i].up
    ensures RunStart(h, i) <= i && TrailingFailures(Results(h[..i + 1])) == i - RunStart(h, i) + 1
  {
    var r := Results(h[..i + 1]);
    assert r[..i] == Results(h[..i]);
    if i > 0 {
      assert Results(h[..i])[i - 1] == h[i - 1].up;
      if !h[i - 1].up { TrailingFailuresIsRunLength(h, i - 1); }
    }
  }

  // Whether the run going on after `n` checks has been alerted.
  predicate Alerted(h: seq<Check>, n: nat)
    requires n <= |h|
  {
    n > 0 && !h[n - 1].up && RunAlertedBy(h, n - 1, n)
  }

  lemma AlertedStep(h: seq<Check>, n: nat)
    requires n < |h|
    ensures !h[n].up ==> (RunAlertedBy(h, n, n) <==> Alerted(h, n))
    ensures Alerted(h, n + 1) <==> !h[n].up && (Alerted(h, n) || Alertable(h, n))
    ensures UpAt(h, n) <==> h[n].up && Alerted(h, n)
  {
    if !h[n].up {
      RunStartIs(h, n);
      if Alertable(h, n) { assert RunStart(h, n) <= n < n + 1; }
      if Alerted(h, n) {
        var j :| RunStart(h, n - 1) <= j < n && Alertable(h, j);
        assert RunStart(h, n) <= j < n + 1;
      }
    }
  }

  lemma {:induction false} RunStartIs(h: seq<Check>, i: nat)
    requires i < |h| && !h[i].up
    ensures RunStart(h, i) <= i && forall k :: RunStart(h, i) <= k <= i ==> !h[k].up
    ensures RunStart(h, i) > 0 ==> h[RunStart(h, i) - 1].up
  {
    if i > 0 && !h[i - 1].up { RunStartIs(h, i - 1); }
  }

  ghost predicate Agree(h: seq<Check>, n: nat, r: Rows)
    requires n <= |h|
  {
    && r.results == Results(h[..n])
    && r.status == (if n == 0 then Unknown else if h[n - 1].up then Up else Down)
    && |r.open| == DownsBefore(h, n)
    && r.alerts == Stream(h, n)
    // One incident is open exactly while an alerted run of failures goes on, the newest one.
    && (forall k :: 0 <= k < |r.open| ==> (r.open[k] <==> k == |r.open| - 1 && Alerted(h, n)))
    && (Alerted(h, n) ==> |r.open| > 0)
  }

  lemma OpenIsNewest(open: seq<bool>, alerted: bool)
    requires forall k :: 0 <= k < |open| ==> (open[k] <==> k == |open| - 1 && alerted)
    requires alerted ==> |open| > 0
    ensures OpenIncident(open) == if alerted then Some((|open| - 1) as nat) else None
  {
    OpenIncidentFound(open);
  }

  lemma AgreeStep(h: seq<Check>, n: nat, r: Rows)
    requires n < |h| && Agree(h, n, r)
    ensures Agree(h, n + 1, Process(r, h[n]))
  {
    assert h[..n + 1] == h[..n] + [h[n]];
    assert Results(h[..n + 1]) == r.results + [h[n].up];
    OpenIsNewest(r.open, Alerted(h, n));
    AlertedStep(h, n);
    if !h[n].up { TrailingFailuresIsRunLength(h, n); }
  }

  lemma {:induction false} AutomatonFollowsHistory(h: seq<Check>, n: nat)
    requires n <= |h|
    ensures Agree(h, n, ProcessAll(h[..n]))
  {
    if n == 0 {
      assert h[..0] == [];
    } else {
      AutomatonFollowsHistory(h, n - 1);
      AgreeStep(h, n - 1, ProcessAll(h[..n - 1]));
      assert h[..n][..n - 1] == h[..n - 1];
    }
  }

  /** Serial refinement: whatever the history, and whatever cooldown and maintenance answer, the
      published alerts are the stream read off the history, check by check. */
  lemma {:induction false} SerialRefinement(h: seq<Check>)
    ensures ProcessAll(h).alerts == Stream(h, |h|)
    ensures forall n :: 0 <= n <= |h| ==> ProcessAll(h[..n]).alerts == Stream(h, n)
  {
    forall n | 0 <= n <= |h| ensures ProcessAll(h[..n]).alerts == Stream(h, n) {
      AutomatonFollowsHistory(h, n);
    }
    assert h[..|h|] == h;
  }

  /** An incident is open only while the monitor is down, and never two at once. */
  lemma OpenOnlyWhileDown(h: seq<Check>, j: nat, k: nat)
    requires j < |ProcessAll(h).open| && k < |ProcessAll(h).open|
    requires ProcessAll(h).open[j] && ProcessAll(h).open[k]
    ensures ProcessAll(h).status == Down && j == k
  {
    AutomatonFollowsHistory(h, |h|);
    assert h[..|h|] == h;
  }

  /** Alerts strictly alternate, and each recovery names the incident of the alert before it. */
  lemma {:induction false} AlertsAlternate(h: seq<Check>, n: nat)
    requires n <= |h|
    ensures var s := Stream(h, n);
            && (forall k :: 0 <= k < |s| ==> s[k] == if k % 2 == 0 then DownAlert(k / 2) else UpAlert(k / 2))
            && |s| == 2 * DownsBefore(h, n) - (if Alerted(h, n) then 1 else 0)
  {
    if n > 0 {
      AlertsAlternate(h, n - 1);
      AlertedStep(h, n - 1);
    }
  }

  lemma {:induction false} OneRun(h: seq<Check>, i: nat, j: nat)
    requires i < |h| && !h[i].up && RunStart(h, i) <= j <= i
    ensures !h[j].up && RunStart(h, j) == RunStart(h, i)
  {
    if j < i { OneRun(h, i - 1, j); }
  }

  lemma AlertableIs(h: seq<Check>, i: nat)
    requires i < |h| && !h[i].up
    ensures forall j :: RunStart(h, i) <= j <= i ==>
              (Alertable(h, j) <==> !h[j].cooldown && !h[j].maintenance.Ongoing? &&
                                    j - RunStart(h, i) + 1 >= h[j].threshold)
  {
    forall j | RunStart(h, i) <= j <= i ensures !h[j].up && RunStart(h, j) == RunStart(h, i) { OneRun(h, i, j); }
  }

  /** A run of failures raises a down alert exactly when it has an alertable failure, at the first
      of them, and never a second one: a failure outside cooldown and maintenance, at a position in the
      run that reaches the threshold. */
  lemma {:induction false} OneDownAlertPerRun(h: seq<Check>, i: nat)
    requires i < |h| && !h[i].up
    ensures RunAlertedBy(h, i, i + 1) <==> exists d :: RunStart(h, i) <= d <= i && DownAt(h, d)
    ensures (exists d :: RunStart(h, i) <= d <= i && DownAt(h, d)) <==>
            exists j :: RunStart(h, i) <= j <= i && !h[j].cooldown && !h[j].maintenance.Ongoing? &&
                        j - RunStart(h, i) + 1 >= h[j].threshold
    ensures forall d, e ::
              RunStart(h, i) <= d <= i && RunStart(h, i) <= e <= i && DownAt(h, d) && DownAt(h, e) ==> d == e
    ensures forall d :: RunStart(h, i) <= d <= i && DownAt(h, d) ==> !h[d].cooldown && !h[d].maintenance.Ongoing?
  {
    AlertableIs(h, i);
    forall d, e | RunStart(h, i) <= d < e <= i && DownAt(h, d)
      ensures !DownAt(h, e)
    {
      OneRun(h, i, e);
      assert Alertable(h, d);
    }
    if RunAlertedBy(h, i, i + 1) {
      var j :| RunStart(h, i) <= j < i + 1 && Alertable(h, j);
      FirstAlertable(h, i, j);
    }
  }

  lemma {:induction false} FirstAlertable(h: seq<Check>, i: nat, j: nat)
    requires i < |h| && !h[i].up && RunStart(h, i) <= j <= i && Alertable(h, j)
    ensures exists d :: RunStart(h, i) <= d <= j && DownAt(h, d)
    decreases j
  {
    OneRun(h, i, j);
    if RunAlertedBy(h, j, j) {
      var k :| RunStart(h, j) <= k < j && Alertable(h, k);
      FirstAlertable(h, i, k);
    } else {
      assert DownAt(h, j);
    }
  }

  // ---- The service as an object ----

  class MonitoringService {
    var results: seq<bool>
    var status: Status
    var open: seq<bool>
    var alerts: seq<Alert>

    constructor ()
      ensures View() == FRESH
    {
      results, status, open, alerts := [], Unknown, [], [];
    }

    function View(): Rows
      reads this
    {
      Rows(results, status, open, alerts)
    }

    method UpdateStatus(s: Status) returns (previous: Status)
      modifies this`status
      ensures status == s && previous == old(status)
    {
      previous := status;
      status := s;
    }

    method ProcessCheckResult(c: Check)
      modifies this
      ensures View() == Process(old(View()), c)
      ensures results == old(results) + [c.up] && status == if c.up then Up else Down
      ensures !c.up && (c.cooldown || c.maintenance == Ongoing) ==> open == old(open) && alerts == old(alerts)
      ensures c.up && old(status) != Down ==> open == old(open) && alerts == old(alerts)
      ensures !c.up && !c.cooldown && c.maintenance != Ongoing && c.threshold <= |results| &&
              (forall k :: 0 <= k < |old(open)| ==> !old(open)[k]) &&
              (forall k :: 0 <= k < |results| && |results| - c.threshold <= k ==> !results[k]) ==>
                open == old(open) + [true] && alerts == old(alerts) + [DownAlert(|old(open)|)]
      ensures !c.up && c.threshold > 0 &&
              (c.threshold > |results| || exists k :: |results| - c.threshold <= k < |results| && results[k]) ==>
                open == old(open) && alerts == old(alerts)
      ensures !c.up && (exists k :: 0 <= k < |old(open)| && old(open)[k]) ==> open == old(open) && alerts == old(alerts)
      ensures forall id: nat :: c.up && old(status) == Down && NewestOpen(old(open), id) ==>
                open == old(open)[id := false] && alerts == old(alerts) + [UpAlert(id)]
    {
      results := results + [c.up];
      TrailingFailuresAre(results);
      OpenIncidentFound(open);
      var previous := UpdateStatus(if c.up then Up else Down);
      if !c.up {
        HandleDown(c);
      } else if previous == Down {
        HandleRecovery();
      }
    }

    method HandleDown(c: Check)
      modifies this`open, this`alerts
      ensures var quiet := TrailingFailures(results) < c.threshold || Suppressed(c) || OpenIncident(old(open)).Some?;
              && open == (if quiet then old(open) else old(open) + [true])
              && alerts == if quiet then old(alerts) else old(alerts) + [DownAlert(|old(open)|)]
      ensures c.cooldown || c.maintenance == Ongoing ==> open == old(open) && alerts == old(alerts)
      ensures TrailingFailures(results) >= c.threshold && !c.cooldown && c.maintenance != Ongoing &&
              (forall k :: 0 <= k < |old(open)| ==> !old(open)[k]) ==>
                open == old(open) + [true] && alerts == old(alerts) + [DownAlert(|old(open)|)]
    {
      OpenIncidentFound(open);
      var failures := TrailingFailures(results);
      if failures < c.threshold { return; }
      if c.cooldown { return; }
      if c.maintenance.Ongoing? { return; }
      if OpenIncident(open).Some? { return; }  // the unique index refuses a second open incident
      var id := |open|;
      open := open + [true];
      alerts := alerts + [DownAlert(id)];
    }

    method HandleRecovery()
      modifies this`open, this`alerts
      ensures match OpenIncident(old(open))
              case None => open == old(open) && alerts == old(alerts)
              case Some(id) =>
                id < |old(open)| && open == old(open)[id := false] && alerts == old(alerts) + [UpAlert(id)]
    {
      OpenIncidentFound(open);
      var found := OpenIncident(open);
      if found.None? { return; }
      open := open[found.value := false];
      alerts := alerts + [UpAlert(found.value)];
    }
  }
}
