/** The daily scan of certificate expiry, and which spacings of scans raise each of its three alerts
    exactly once. */
module SslThresholds {
  import opened Wrappers

  // Nanoseconds, as durations are counted.
  type Time = int

  const DAY := 24 * 3600 * 1_000_000_000
  const MAX_DURATION := 0x7FFF_FFFF_FFFF_FFFF
  const MIN_DURATION := -0x8000_0000_0000_0000

  // The difference of two times, which is cut off at the ends of a 64-bit integer.
  function Sub(a: Time, b: Time): int {
    if a - b > MAX_DURATION then MAX_DURATION else if a - b < MIN_DURATION then MIN_DURATION else a - b
  }

  // Integer division in Go drops the fraction, so it rounds towards zero.
  function TruncatedQuotient(a: int, b: int): int
    requires b > 0
  {
    if a >= 0 then a / b else -(-a / b)
  }

  function DaysUntilExpiry(notAfter: Time, now: Time): int { TruncatedQuotient(Sub(notAfter, now), DAY) }

  predicate IsThreshold(days: int) { days == 14 || days == 7 || days == 1 }

  // Below the cut-off, a whole number of days is a half-open window of one day.
  lemma WindowOf(notAfter: Time, now: Time, n: int)
    requires 1 <= n <= 100
    ensures DaysUntilExpiry(notAfter, now) == n <==> n * DAY <= notAfter - now < (n + 1) * DAY
    ensures DaysUntilExpiry(notAfter, now) >= n <==> n * DAY <= notAfter - now
  {
    var d := Sub(notAfter, now);
    if d >= 0 {
      assert d == (d / DAY) * DAY + d % DAY;
    }
  }

  // ---- The alerts of one certificate ----

  // The days left that the scans alert about, in order.
  function Alerts(notAfter: Time, scans: seq<Time>): seq<int> {
    if scans == [] then []
    else
      var days := DaysUntilExpiry(notAfter, scans[|scans| - 1]);
      Alerts(notAfter, scans[..|scans| - 1]) + if IsThreshold(days) then [days] else []
  }

  predicate GapsWithin(scans: seq<Time>, low: int, high: int) {
    forall k :: 0 <= k < |scans| - 1 ==> low <= scans[k + 1] - scans[k] <= high
  }

  predicate GapsAtLeast(scans: seq<Time>, low: int) {
    forall k :: 0 <= k < |scans| - 1 ==> low <= scans[k + 1] - scans[k]
  }

  // The scans see the certificate with fifteen days left, and go on until less than a day is left.
  predicate WholeLife(notAfter: Time, scans: seq<Time>) {
    |scans| > 0 && notAfter - scans[0] >= 15 * DAY && notAfter - scans[|scans| - 1] < DAY
  }

  lemma {:induction false} AlertsAre(notAfter: Time, scans: seq<Time>, n: int)
    requires IsThreshold(n)
    ensures n in Alerts(notAfter, scans) <==> exists k :: 0 <= k < |scans| && DaysUntilExpiry(notAfter, scans[k]) == n
  {
    if scans != [] {
      var last := |scans| - 1;
      AlertsAre(notAfter, scans[..last], n);
      assert forall k :: 0 <= k < last ==> scans[..last][k] == scans[k];
      if DaysUntilExpiry(notAfter, scans[last]) == n {
        assert Alerts(notAfter, scans)[|Alerts(notAfter, scans)| - 1] == n;
      }
    }
  }

  lemma {:induction false} SomeScanHits(notAfter: Time, scans: seq<Time>, n: int)
    requires 1 <= n <= 14 && |scans| > 0 && GapsWithin(scans, 0, DAY)
    requires notAfter - scans[0] >= 15 * DAY && notAfter - scans[|scans| - 1] < n * DAY
    ensures exists k :: 0 <= k < |scans| && DaysUntilExpiry(notAfter, scans[k]) == n
  {
    var last := |scans| - 1;
    assert last > 0;
    WindowOf(notAfter, scans[last - 1], n);
    if notAfter - scans[last - 1] < n * DAY {
      SomeScanHits(notAfter, scans[..last], n);
      assert forall k :: 0 <= k < last ==> scans[..last][k] == scans[k];
    } else {
      assert scans[last] - scans[last - 1] <= DAY by { assert scans[last - 1 + 1] == scans[last]; }
    }
  }

  /** Scans at most a day apart miss none of the three alerts. */
  lemma NothingSkipped(notAfter: Time, scans: seq<Time>, n: int)
    requires IsThreshold(n) && WholeLife(notAfter, scans) && GapsWithin(scans, 0, DAY)
    ensures n in Alerts(notAfter, scans)
  {
    SomeScanHits(notAfter, scans, n);
    AlertsAre(notAfter, scans, n);
  }

  ghost predicate Falling(s: seq<int>) { forall j, k :: 0 <= j < k < |s| ==> s[j] > s[k] }

  lemma {:induction false} LaterScan(scans: seq<Time>, j: nat, k: nat, gap: int)
    requires j < k < |scans| && gap >= 0 && GapsAtLeast(scans, gap)
    ensures scans[k] - scans[j] >= gap
  {
    assert scans[k - 1 + 1] - scans[k - 1] >= gap;
    if j < k - 1 { LaterScan(scans, j, k - 1, gap); }
  }

  lemma CountsDown(notAfter: Time, t: Time, u: Time)
    requires u - t >= DAY && IsThreshold(DaysUntilExpiry(notAfter, t)) && IsThreshold(DaysUntilExpiry(notAfter, u))
    ensures DaysUntilExpiry(notAfter, t) > DaysUntilExpiry(notAfter, u)
  {
    var d, e := DaysUntilExpiry(notAfter, t), DaysUntilExpiry(notAfter, u);
    WindowOf(notAfter, t, d);
    WindowOf(notAfter, u, e);
  }

  /** Scans at least a day apart repeat none: the alerts only count down. */
  lemma {:induction false} NothingRepeated(notAfter: Time, scans: seq<Time>)
    requires GapsAtLeast(scans, DAY)
    ensures Falling(Alerts(notAfter, scans))
  {
    if scans != [] {
      var last := |scans| - 1;
      NothingRepeated(notAfter, scans[..last]);
      var before, days := Alerts(notAfter, scans[..last]), DaysUntilExpiry(notAfter, scans[last]);
      if IsThreshold(days) {
        forall j | 0 <= j < |before| ensures before[j] > days {
          AlertFrom(notAfter, scans[..last], j);
          var k :| 0 <= k < last && DaysUntilExpiry(notAfter, scans[..last][k]) == before[j];
          LaterScan(scans, k, last, DAY);
          CountsDown(notAfter, scans[k], scans[last]);
        }
      }
    }
  }

  lemma {:induction false} AlertFrom(notAfter: Time, scans: seq<Time>, j: nat)
    requires j < |Alerts(notAfter, scans)|
    ensures IsThreshold(Alerts(notAfter, scans)[j])
    ensures exists k :: 0 <= k < |scans| && DaysUntilExpiry(notAfter, scans[k]) == Alerts(notAfter, scans)[j]
  {
    var last := |scans| - 1;
    if j < |Alerts(notAfter, scans[..last])| {
      AlertFrom(notAfter, scans[..last], j);
      var k :| 0 <= k < last && DaysUntilExpiry(notAfter, scans[..last][k]) == Alerts(notAfter, scans)[j];
      assert scans[..last][k] == scans[k];
    }
  }

  /** Scans exactly a day apart raise the three alerts once each, in order. */
  lemma DailyScansAlertOnceEach(notAfter: Time, scans: seq<Time>)
    requires WholeLife(notAfter, scans) && GapsWithin(scans, DAY, DAY)
    ensures Alerts(notAfter, scans) == [14, 7, 1]
  {
    var a := Alerts(notAfter, scans);
    NothingSkipped(notAfter, scans, 14);
    NothingSkipped(notAfter, scans, 7);
    NothingSkipped(notAfter, scans, 1);
    NothingRepeated(notAfter, scans);
    forall j | 0 <= j < |a| ensures IsThreshold(a[j]) {
      AlertFrom(notAfter, scans, j);
    }
    FallingThresholds(a);
  }

  // Counting down leaves room for few thresholds before each.
  lemma {:induction false} Place(a: seq<int>, j: nat)
    requires Falling(a) && j < |a| && forall k :: 0 <= k < |a| ==> IsThreshold(a[k])
    ensures j <= if a[j] == 14 then 0 else if a[j] == 7 then 1 else 2
  {
    if j > 0 { Place(a, j - 1); }
  }

  lemma FallingThresholds(a: seq<int>)
    requires Falling(a) && 14 in a && 7 in a && 1 in a && forall j :: 0 <= j < |a| ==> IsThreshold(a[j])
    ensures a == [14, 7, 1]
  {
    var i :| 0 <= i < |a| && a[i] == 14;
    var j :| 0 <= j < |a| && a[j] == 7;
    var k :| 0 <= k < |a| && a[k] == 1;
    assert i < j < k;
    Place(a, i);
    Place(a, j);
    Place(a, |a| - 1);
  }

  // ---- Exactly a day ----

  // `count` scans from `start`, a fixed gap apart.
  function Every(start: Time, gap: nat, count: nat): seq<Time> { seq(count, k => start + k * gap) }

  ghost predicate NeverSkips(gap: nat) {
    forall notAfter, start, count: nat, n :: IsThreshold(n) && WholeLife(notAfter, Every(start, gap, count)) ==>
      n in Alerts(notAfter, Every(start, gap, count))
  }

  ghost predicate NeverRepeats(gap: nat) {
    forall notAfter, start, count: nat :: Falling(Alerts(notAfter, Every(start, gap, count)))
  }

  lemma EveryGap(start: Time, gap: nat, count: nat)
    ensures GapsWithin(Every(start, gap, count), gap, gap)
  {
    forall k | 0 <= k < count - 1
      ensures Every(start, gap, count)[k + 1] - Every(start, gap, count)[k] == gap
    {
      assert (k + 1) * gap == k * gap + gap;
    }
  }

  // A longer gap steps over the last window: a scan just before it, the next one just after.
  lemma LongGapSkips(gap: nat)
    requires gap > DAY
    ensures !NeverSkips(gap)
  {
    var scans := Every(0, gap, 16);
    var notAfter := 14 * gap + 2 * DAY;
    assert scans[0] == 0 && scans[15] == 15 * gap;
    assert WholeLife(notAfter, scans);
    forall k | 0 <= k < |scans| ensures DaysUntilExpiry(notAfter, scans[k]) != 1 {
      assert scans[k] == k * gap;
      if k <= 14 {
        assert (14 - k) * gap >= 0;
        assert 14 * gap - k * gap == (14 - k) * gap;
      }
      WindowOf(notAfter, scans[k], 1);
    }
    AlertsAre(notAfter, scans, 1);
    assert IsThreshold(1) && 1 !in Alerts(notAfter, Every(0, gap, 16));
  }

  lemma ShortGapRepeats(gap: nat)
    requires 0 < gap < DAY
    ensures !NeverRepeats(gap)
  {
    var scans := Every(0, gap, 2);
    var notAfter := 2 * DAY - 1;
    assert scans[..1] == [0] && scans[1] == gap && [0][..0] == [];
    WindowOf(notAfter, 0, 1);
    WindowOf(notAfter, gap, 1);
    assert Alerts(notAfter, [0]) == [1];
    assert Alerts(notAfter, scans) == [1, 1];
    assert !Falling([1, 1]) by { assert [1, 1][0] == [1, 1][1]; }
  }

  /** With scans a fixed gap apart, no alert is ever skipped exactly when the gap is at most a day, and
      none ever repeated exactly when it is at least a day: only 24 hours sharp gives both. */
  lemma OnlyADayDoesBoth(gap: nat)
    requires gap > 0
    ensures NeverSkips(gap) <==> gap <= DAY
    ensures NeverRepeats(gap) <==> gap >= DAY
  {
    if gap <= DAY {
      forall notAfter, start, count: nat, n | IsThreshold(n) && WholeLife(notAfter, Every(start, gap, count))
        ensures n in Alerts(notAfter, Every(start, gap, count))
      {
        EveryGap(start, gap, count);
        NothingSkipped(notAfter, Every(start, gap, count), n);
      }
    } else {
      LongGapSkips(gap);
    }
    if gap >= DAY {
      forall notAfter, start, count: nat ensures Falling(Alerts(notAfter, Every(start, gap, count))) {
        EveryGap(start, gap, count);
        NothingRepeated(notAfter, Every(start, gap, count));
      }
    } else {
      ShortGapRepeats(gap);
    }
  }

  // ---- The scan ----

  type MonitorId = nat

  /** `url` is the url field of the monitor's settings, when they are JSON with a text there. */
  datatype Monitor = Monitor(id: MonitorId, url: Option<string>)
  datatype Alert = Alert(monitor: MonitorId, url: string, days: int)

  const SCHEME := "https://"

  function ExtractHttpUrl(m: Monitor): (url: Option<string>)
    ensures url.Some? <==> m.url.Some? && SCHEME <= m.url.value
    ensures url.Some? ==> url == m.url
  {
    match m.url
    case Some(url) => if url != "" && SCHEME <= url then Some(url) else None
    case None => None
  }

  // `expiries` holds the answers of the certificates that can be probed.
  function DueAlert(m: Monitor, now: Time, expiries: map<string, Time>): Option<Alert> {
    match ExtractHttpUrl(m)
    case None => None
    case Some(url) =>
      if url !in expiries then None
      else
        var days := DaysUntilExpiry(expiries[url], now);
        if IsThreshold(days) then Some(Alert(m.id, url, days)) else None
  }

  function DueAlerts(monitors: seq<Monitor>, now: Time, expiries: map<string, Time>, lost: set<MonitorId>): seq<Alert> {
    if monitors == [] then []
    else
      var m := monitors[|monitors| - 1];
      DueAlerts(monitors[..|monitors| - 1], now, expiries, lost) +
      match DueAlert(m, now, expiries)
      case Some(a) => if m.id in lost then [] else [a]
      case None => []
  }

  // ---- What the scans publish about one monitor ----

  // The days left in the alerts about monitor `id`, in order.
  function DaysFor(published: seq<Alert>, id: MonitorId): seq<int> {
    if published == [] then []
    else
      var n := |published| - 1;
      DaysFor(published[..n], id) + if published[n].monitor == id then [published[n].days] else []
  }

  lemma DaysForLonger(published: seq<Alert>, a: Alert, id: MonitorId)
    ensures DaysFor(published + [a], id) == DaysFor(published, id) + if a.monitor == id then [a.days] else []
  {
    assert (published + [a])[..|published|] == published;
  }

  lemma {:induction false} DaysForConcat(p: seq<Alert>, q: seq<Alert>, id: MonitorId)
    ensures DaysFor(p + q, id) == DaysFor(p, id) + DaysFor(q, id)
  {
    if q == [] {
      assert p + q == p;
    } else {
      var n := |q| - 1;
      DaysForConcat(p, q[..n], id);
      assert p + q == (p + q[..n]) + [q[n]] by { assert q == q[..n] + [q[n]]; }
      DaysForLonger(p + q[..n], q[n], id);
    }
  }

  // The monitor is listed, and once.
  predicate ListsOnce(monitors: seq<Monitor>, m: Monitor) {
    exists k :: 0 <= k < |monitors| && monitors[k] == m && OnlyAt(monitors, m.id, k)
  }

  predicate OnlyAt(monitors: seq<Monitor>, id: MonitorId, k: int) {
    forall j :: 0 <= j < |monitors| && j != k ==> monitors[j].id != id
  }

  lemma OneMoreMonitor(monitors: seq<Monitor>, now: Time, expiries: map<string, Time>, lost: set<MonitorId>,
                       id: MonitorId)
    requires monitors != []
    ensures var n := |monitors| - 1;
            DaysFor(DueAlerts(monitors, now, expiries, lost), id) ==
            DaysFor(DueAlerts(monitors[..n], now, expiries, lost), id) +
            match DueAlert(monitors[n], now, expiries)
            case Some(a) => if monitors[n].id in lost || monitors[n].id != id then [] else [a.days]
            case None => []
  {
    var n := |monitors| - 1;
    var before, due := DueAlerts(monitors[..n], now, expiries, lost), DueAlert(monitors[n], now, expiries);
    if due.Some? && monitors[n].id !in lost {
      DaysForLonger(before, due.value, id);
    } else {
      assert DueAlerts(monitors, now, expiries, lost) == before;
    }
  }

  lemma {:induction false} NothingForOthers(monitors: seq<Monitor>, now: Time, expiries: map<string, Time>,
                                           lost: set<MonitorId>, id: MonitorId)
    requires forall j :: 0 <= j < |monitors| ==> monitors[j].id != id
    ensures DaysFor(DueAlerts(monitors, now, expiries, lost), id) == []
  {
    if monitors != [] {
      NothingForOthers(monitors[..|monitors| - 1], now, expiries, lost, id);
      OneMoreMonitor(monitors, now, expiries, lost, id);
    }
  }

  lemma DueIs(m: Monitor, now: Time, expiries: map<string, Time>)
    ensures DueAlert(m, now, expiries) ==
            if m.url.Some? && "https://" <= m.url.value && m.url.value in expiries then
              var days := DaysUntilExpiry(expiries[m.url.value], now);
              if days == 14 || days == 7 || days == 1 then Some(Alert(m.id, m.url.value, days)) else None
            else None
  {
  }

  // A monitor that is listed once is alerted about when it is due and its publish goes through.
  lemma {:induction false} AlertsWhenDue(monitors: seq<Monitor>, now: Time, expiries: map<string, Time>,
                                        lost: set<MonitorId>, m: Monitor)
    requires ListsOnce(monitors, m)
    ensures DaysFor(DueAlerts(monitors, now, expiries, lost), m.id) ==
            match DueAlert(m, now, expiries)
            case Some(a) => if m.id in lost then [] else [a.days]
            case None => []
  {
    var k :| 0 <= k < |monitors| && monitors[k] == m && OnlyAt(monitors, m.id, k);
    var n := |monitors| - 1;
    var before, rest := monitors[..n], DaysFor(DueAlerts(monitors[..n], now, expiries, lost), m.id);
    OneMoreMonitor(monitors, now, expiries, lost, m.id);
    if k == n {
      NothingForOthers(before, now, expiries, lost, m.id);
      assert rest == [];
    } else {
      assert before[k] == m && OnlyAt(before, m.id, k);
      AlertsWhenDue(before, now, expiries, lost, m);
      assert monitors[n].id != m.id;
      assert DaysFor(DueAlerts(monitors, now, expiries, lost), m.id) == rest + [];
    }
  }

  /** One scan alerts about a monitor when its address is https, its certificate can be probed and has
      14, 7 or 1 whole days left, and the publish goes through; otherwise not. */
  lemma ScanAlerts(monitors: seq<Monitor>, now: Time, expiries: map<string, Time>, lost: set<MonitorId>, m: Monitor)
    requires ListsOnce(monitors, m)
    ensures DaysFor(DueAlerts(monitors, now, expiries, lost), m.id) ==
            if m.url.Some? && "https://" <= m.url.value && m.url.value in expiries && m.id !in lost then
              var days := DaysUntilExpiry(expiries[m.url.value], now);
              if days == 14 || days == 7 || days == 1 then [days] else []
            else []
  {
    AlertsWhenDue(monitors, now, expiries, lost, m);
    DueIs(m, now, expiries);
  }

  /** What one scan meets: the listing, None being an error, the time, the certificates that answer, and
      the monitors whose publish is lost. */
  datatype Scan = Scan(monitors: Option<seq<Monitor>>, now: Time, expiries: map<string, Time>, lost: set<MonitorId>)

  function PublishedBy(s: Scan): seq<Alert> {
    match s.monitors
    case None => []
    case Some(ms) => DueAlerts(ms, s.now, s.expiries, s.lost)
  }

  function PublishedByAll(scans: seq<Scan>): seq<Alert> {
    if scans == [] then [] else PublishedByAll(scans[..|scans| - 1]) + PublishedBy(scans[|scans| - 1])
  }

  // The scan lists `m`, gets its certificate, and its publish goes through.
  predicate Sees(s: Scan, m: Monitor, notAfter: Time) {
    && s.monitors.Some? && ListsOnce(s.monitors.value, m) && m.id !in s.lost
    && m.url.Some? && "https://" <= m.url.value && m.url.value in s.expiries && s.expiries[m.url.value] == notAfter
  }

  lemma OneMoreScan(scans: seq<Scan>, k: nat)
    requires k < |scans|
    ensures PublishedByAll(scans[..k + 1]) == PublishedByAll(scans[..k]) + PublishedBy(scans[k])
  {
    assert scans[..k + 1][..k] == scans[..k];
  }

  lemma Regroup(a: seq<Alert>, b: seq<Alert>, c: seq<Alert>)
    ensures (a + b) + c == a + (b + c)
  {
  }

  function Times(scans: seq<Scan>): seq<Time> { seq(|scans|, k requires 0 <= k < |scans| => scans[k].now) }

  /** Scans in a row that see a monitor publish about it exactly the alerts of its certificate. */
  lemma {:induction false} ScansPublishAlerts(scans: seq<Scan>, m: Monitor, notAfter: Time)
    requires forall k :: 0 <= k < |scans| ==> Sees(scans[k], m, notAfter)
    ensures DaysFor(PublishedByAll(scans), m.id) == Alerts(notAfter, Times(scans))
  {
    if scans != [] {
      var n := |scans| - 1;
      ScansPublishAlerts(scans[..n], m, notAfter);
      assert Times(scans)[..n] == Times(scans[..n]);
      ScanAlerts(scans[n].monitors.value, scans[n].now, scans[n].expiries, scans[n].lost, m);
      DaysForConcat(PublishedByAll(scans[..n]), PublishedBy(scans[n]), m.id);
    }
  }

  /** So daily scans tell the owner of 14, 7 and 1 days, once each and in this order. */
  lemma DailyScansPublishOnceEach(scans: seq<Scan>, m: Monitor, notAfter: Time)
    requires forall k :: 0 <= k < |scans| ==> Sees(scans[k], m, notAfter)
    requires WholeLife(notAfter, Times(scans)) && GapsWithin(Times(scans), DAY, DAY)
    ensures DaysFor(PublishedByAll(scans), m.id) == [14, 7, 1]
  {
    ScansPublishAlerts(scans, m, notAfter);
    DailyScansAlertOnceEach(notAfter, Times(scans));
  }

  class AlertStream {
    var published: seq<Alert>

    constructor ()
      ensures published == []
    {
      published := [];
    }
  }

  /** One scan publishes what is due, in the order of the monitors; a probe or a publish (those in
      `lost`) that fails costs only its own alert. */
  method RunSslScan(monitors: Option<seq<Monitor>>, now: Time, expiries: map<string, Time>, lost: set<MonitorId>,
                    alerts: AlertStream) returns (alerted: nat)
    modifies alerts
    ensures alerts.published == old(alerts.published) +
                                PublishedBy(Scan(monitors, now, expiries, lost))
    ensures alerted == |alerts.published| - |old(alerts.published)|
  {
    alerted := 0;
    if monitors.None? { return; }
    var ms := monitors.value;
    for k := 0 to |ms|
      invariant alerts.published == old(alerts.published) + DueAlerts(ms[..k], now, expiries, lost)
      invariant alerted == |DueAlerts(ms[..k], now, expiries, lost)|
    {
      assert ms[..k + 1][..k] == ms[..k];
      var m := ms[k];
      var url := ExtractHttpUrl(m);
      if url.None? { continue; }
      if url.value !in expiries { continue; }
      var days := DaysUntilExpiry(expiries[url.value], now);
      if days != 14 && days != 7 && days != 1 { continue; }
      if m.id in lost { continue; }
      alerts.published := alerts.published + [Alert(m.id, url.value, days)];
      alerted := alerted + 1;
    }
    assert ms[..|ms|] == ms;
  }

  /** The scans of the daily job, one after the other. */
  method RunDailyScans(scans: seq<Scan>, alerts: AlertStream)
    modifies alerts
    ensures alerts.published == old(alerts.published) + PublishedByAll(scans)
  {
    for k := 0 to |scans|
      invariant alerts.published == old(alerts.published) + PublishedByAll(scans[..k])
    {
      var s := scans[k];
      ghost var sofar := PublishedByAll(scans[..k]);
      var _ := RunSslScan(s.monitors, s.now, s.expiries, s.lost, alerts);
      OneMoreScan(scans, k);
      Regroup(old(alerts.published), sofar, PublishedBy(s));
    }
    assert scans[..|scans|] == scans;
  }
}
