/** The daily renewal of certificates, and how many failed runs in a row the thirty-day head start
    survives. */
module CertRenewal {

  type Host = string
  // Nanoseconds, as durations are counted.
  type Time = int

  const DAY := 24 * 3600 * 1_000_000_000
  const HEAD_START := 30 * DAY

  /** The certificates of the active domains, by their time of expiry. */
  type Certs = map<Host, Time>

  predicate Due(certs: Certs, h: Host, now: Time) { h in certs && certs[h] < now + HEAD_START }

  // What one run leaves behind: `issued` are the hosts the authority answers for, and with what.
  function Renewed(certs: Certs, now: Time, issued: Certs): Certs {
    map h | h in certs :: if Due(certs, h, now) && h in issued then issued[h] else certs[h]
  }

  /** A run (with no answers at all when the listing failed), a first certificate for a domain that
      becomes active, or a domain that stops being active. */
  datatype Event =
    | Run(now: Time, issued: Certs)
    | Activated(now: Time, host: Host, expiry: Time)
    | Gone(host: Host)

  function Step(certs: Certs, e: Event): Certs {
    match e
    case Run(now, issued) => Renewed(certs, now, issued)
    case Activated(_, h, expiry) => certs[h := expiry]
    case Gone(h) => certs - {h}
  }

  function Exec(certs: Certs, events: seq<Event>): Certs {
    if events == [] then certs else Step(Exec(certs, events[..|events| - 1]), events[|events| - 1])
  }

  // From step `k` on, `h` does not stop being active.
  predicate StaysFrom(events: seq<Event>, k: nat, h: Host) { forall j :: k <= j < |events| ==> events[j] != Gone(h) }

  predicate ActivatedAt(events: seq<Event>, k: nat, h: Host)
    requires k < |events|
  {
    events[k].Activated? && events[k].host == h && StaysFrom(events, k, h)
  }

  /** Renewals neither add nor drop a host: a certificate is looked after exactly from the activation of its
      domain until that stops being active. */
  lemma {:induction false} LookedAfterExactly(certs: Certs, events: seq<Event>, h: Host)
    ensures h in Exec(certs, events) <==>
            (h in certs && StaysFrom(events, 0, h)) || exists k :: 0 <= k < |events| && ActivatedAt(events, k, h)
  {
    if events != [] {
      var n := |events| - 1;
      var rest := events[..n];
      LookedAfterExactly(certs, rest, h);
      assert forall k :: 0 <= k <= n ==> (StaysFrom(events, k, h) <==> StaysFrom(rest, k, h) && events[n] != Gone(h));
      if k :| 0 <= k < n && ActivatedAt(rest, k, h) && events[n] != Gone(h) {
        assert ActivatedAt(events, k, h);
      }
      if events[n].Activated? && events[n].host == h {
        assert ActivatedAt(events, n, h);
      }
      if k :| 0 <= k < |events| && ActivatedAt(events, k, h) && k < n {
        assert ActivatedAt(rest, k, h);
      }
    }
  }

  // When the last run was, counting `start` as one.
  function LastRun(start: Time, events: seq<Event>): Time {
    if events == [] then start
    else if events[|events| - 1].Run? then events[|events| - 1].now
    else LastRun(start, events[..|events| - 1])
  }

  // Runs come at most `gap` apart, and every certificate is issued with at least the head start to live.
  predicate Regular(start: Time, gap: nat, events: seq<Event>) {
    events == [] ||
    var rest, last := events[..|events| - 1], events[|events| - 1];
    && Regular(start, gap, rest)
    && match last {
         case Run(now, issued) =>
           && LastRun(start, rest) <= now <= LastRun(start, rest) + gap
           && forall h :: h in issued ==> issued[h] >= now + HEAD_START
         case Activated(now, _, expiry) => LastRun(start, rest) <= now && expiry >= now + HEAD_START
         case Gone(_) => true
       }
  }

  // How many of the latest runs in a row tried to renew `h` and failed.
  function FailuresInARow(certs: Certs, events: seq<Event>, h: Host): nat {
    if events == [] then 0
    else
      var rest := events[..|events| - 1];
      var so_far := FailuresInARow(certs, rest, h);
      match events[|events| - 1]
      case Run(now, issued) => if Due(Exec(certs, rest), h, now) && h !in issued then so_far + 1 else 0
      case Activated(_, host, _) => if host == h then 0 else so_far
      case Gone(_) => so_far
  }

  ghost predicate FreshAt(certs: Certs, start: Time) { forall h :: h in certs ==> certs[h] >= start + HEAD_START }

  function Gaps(f: nat, gap: nat): nat { if f == 0 then 0 else Gaps(f - 1, gap) + gap }

  lemma {:induction false} GapsMultiply(f: nat, gap: nat)
    ensures Gaps(f, gap) == f * gap
  {
    if f > 0 { GapsMultiply(f - 1, gap); }
  }

  lemma {:induction false} MoreGaps(less: nat, more: nat, gap: nat)
    requires less <= more
    ensures Gaps(less, gap) <= Gaps(more, gap)
  {
    if less < more { MoreGaps(less, more - 1, gap); }
  }

  // Every failure in a row costs at most one gap of the head start.
  lemma {:induction false} HeadStartLeft(certs: Certs, start: Time, gap: nat, events: seq<Event>, h: Host)
    requires FreshAt(certs, start) && Regular(start, gap, events) && h in Exec(certs, events)
    ensures Exec(certs, events)[h] >=
            LastRun(start, events) + HEAD_START - Gaps(FailuresInARow(certs, events, h), gap)
  {
    if events != [] {
      var n := |events| - 1;
      if h in Exec(certs, events[..n]) { HeadStartLeft(certs, start, gap, events[..n], h); }
    }
  }

  /** `h` is active after a regular history, has missed its last `failed` renewals in a row, and no
      run has come since. */
  ghost predicate Waiting(certs: Certs, start: Time, gap: nat, events: seq<Event>, h: Host, failed: nat, now: Time) {
    && FreshAt(certs, start) && Regular(start, gap, events) && h in Exec(certs, events)
    && FailuresInARow(certs, events, h) == failed
    && LastRun(start, events) <= now <= LastRun(start, events) + gap
  }

  /** Whatever fails when, a certificate that has missed at most `f` renewals in a row is still valid
      at every moment up to the next run, provided `f + 1` gaps fit strictly inside the head start. */
  lemma NeverExpired(certs: Certs, start: Time, gap: nat, events: seq<Event>, h: Host, failed: nat, now: Time, f: nat)
    requires Waiting(certs, start, gap, events, h, failed, now)
    requires failed <= f && (f + 1) * gap < HEAD_START
    ensures now < Exec(certs, events)[h]
  {
    HeadStartLeft(certs, start, gap, events, h);
    MoreGaps(failed, f, gap);
    GapsMultiply(f + 1, gap);
  }

  /** Daily runs: twenty-eight failures in a row are survived. */
  lemma TwentyEightDailyFailures(certs: Certs, start: Time, events: seq<Event>, h: Host, failed: nat, now: Time)
    requires Waiting(certs, start, DAY, events, h, failed, now) && failed <= 28
    ensures now < Exec(certs, events)[h]
  {
    NeverExpired(certs, start, DAY, events, h, failed, now, 28);
  }

  // ---- The bound is sharp ----

  function Outage(start: Time, gap: nat, f: nat): seq<Event> {
    if f == 0 then [] else Outage(start, gap, f - 1) + [Run(start + Gaps(f, gap), map[])]
  }

  lemma OutageNext(start: Time, gap: nat, f: nat)
    requires f > 0
    ensures var events, now := Outage(start, gap, f), start + Gaps(f, gap);
            && events != [] && events[..|events| - 1] == Outage(start, gap, f - 1)
            && events[|events| - 1] == Run(now, map[])
  {
  }

  lemma {:induction false} OutageRegular(start: Time, gap: nat, f: nat)
    ensures Regular(start, gap, Outage(start, gap, f)) && LastRun(start, Outage(start, gap, f)) == start + Gaps(f, gap)
  {
    if f > 0 {
      OutageNext(start, gap, f);
      OutageRegular(start, gap, f - 1);
    }
  }

  lemma {:induction false} OutageRenewsNothing(certs: Certs, start: Time, gap: nat, f: nat)
    ensures Exec(certs, Outage(start, gap, f)) == certs
  {
    if f > 0 {
      OutageNext(start, gap, f);
      OutageRenewsNothing(certs, start, gap, f - 1);
      NothingRenewed(certs, start + Gaps(f, gap));
    }
  }

  lemma {:induction false} OutageKeeps(certs: Certs, start: Time, gap: nat, f: nat, h: Host)
    requires gap > 0 && certs == map[h := start + HEAD_START]
    ensures var events := Outage(start, gap, f);
            && Regular(start, gap, events) && Exec(certs, events) == certs
            && FailuresInARow(certs, events, h) == f && LastRun(start, events) == start + Gaps(f, gap)
  {
    OutageRegular(start, gap, f);
    OutageRenewsNothing(certs, start, gap, f);
    if f > 0 {
      OutageNext(start, gap, f);
      OutageKeeps(certs, start, gap, f - 1, h);
      assert Due(certs, h, start + Gaps(f, gap));
    }
  }

  lemma NothingRenewed(certs: Certs, now: Time)
    ensures Renewed(certs, now, map[]) == certs
  {
  }

  // No history with at most `f` failures in a row ever shows an expired certificate.
  ghost predicate SafeFor(gap: nat, f: nat) {
    forall certs, start, events, h, failed: nat, now ::
      Waiting(certs, start, gap, events, h, failed, now) && failed <= f ==> now < Exec(certs, events)[h]
  }

  /** Tolerating `f` failures in a row is safe exactly when `f + 1` gaps are shorter than the head
      start. */
  lemma SafeExactly(gap: nat, f: nat)
    requires gap > 0
    ensures SafeFor(gap, f) <==> (f + 1) * gap < HEAD_START
  {
    if (f + 1) * gap < HEAD_START {
      forall certs, start, events, h, failed: nat, now |
        Waiting(certs, start, gap, events, h, failed, now) && failed <= f
        ensures now < Exec(certs, events)[h]
      {
        NeverExpired(certs, start, gap, events, h, failed, now, f);
      }
    } else {
      var certs: Certs, events := map["a" := HEAD_START], Outage(0, gap, f);
      OutageKeeps(certs, 0, gap, f, "a");
      GapsMultiply(f + 1, gap);
      assert Waiting(certs, 0, gap, events, "a", f, Gaps(f + 1, gap));
      assert Gaps(f + 1, gap) >= Exec(certs, events)["a"];
    }
  }

  // ---- The renewal run ----

  class CertRepo {
    var expiries: map<Host, Time>
    var active: set<Host>

    constructor ()
      ensures expiries == map[] && active == {}
    {
      expiries, active := map[], {};
    }

    // The hosts of active rows whose certificate expires before `before`, each once, in any order.
    method ListExpiringHostnames(before: Time) returns (hosts: seq<Host>)
      ensures forall h :: h in hosts <==> h in expiries && h in active && expiries[h] < before
      ensures forall j, k :: 0 <= j < k < |hosts| ==> hosts[j] != hosts[k]
    {
      hosts := [];
      var left := set h | h in expiries && h in active && expiries[h] < before;
      while left != {}
        invariant forall h :: h in hosts || h in left <==> h in expiries && h in active && expiries[h] < before
        invariant forall h :: h in hosts ==> h !in left
        invariant forall j, k :: 0 <= j < k < |hosts| ==> hosts[j] != hosts[k]
        decreases |left|
      {
        var h :| h in left;
        hosts, left := hosts + [h], left - {h};
      }
    }

    ghost function ActiveCerts(): Certs
      reads this
    {
      map h | h in expiries && h in active :: expiries[h]
    }
  }

  class CustomDomainService {
    const certRepo: CertRepo?

    constructor (certRepo: CertRepo?)
      ensures this.certRepo == certRepo
    {
      this.certRepo := certRepo;
    }

    /** One run: each due host gets exactly what the authority issued for it, a host it refuses and
        every host that is not due keep what they had. */
    method RunRenewalsOnce(now: Time, listOk: bool, issued: Certs)
      modifies if certRepo == null then {} else {certRepo}
      ensures certRepo != null ==>
        && certRepo.active == old(certRepo.active)
        && certRepo.ActiveCerts() == Step(old(certRepo.ActiveCerts()), Run(now, if listOk then issued else map[]))
        && certRepo.expiries.Keys == old(certRepo.expiries.Keys)
        && (forall h :: h in certRepo.expiries && h !in certRepo.active ==>
              certRepo.expiries[h] == old(certRepo.expiries[h]))
      ensures certRepo != null ==> forall h :: h in certRepo.expiries ==>
        var before := old(certRepo.expiries)[h];
        certRepo.expiries[h] ==
          if listOk && h in issued && h in certRepo.active && before < now + 30 * 24 * 3600 * 1_000_000_000
          then issued[h] else before
    {
      if certRepo == null { return; }
      if !listOk {
        assert certRepo.ActiveCerts() == Step(certRepo.ActiveCerts(), Run(now, map[]));
        return;
      }
      ghost var before := certRepo.expiries;
      var hosts := certRepo.ListExpiringHostnames(now + HEAD_START);
      for k := 0 to |hosts|
        invariant certRepo.expiries.Keys == before.Keys && certRepo.active == old(certRepo.active)
        invariant forall h :: h in before ==>
          certRepo.expiries[h] == if h in hosts[..k] && h in issued then issued[h] else before[h]
      {
        assert hosts[..k + 1] == hosts[..k] + [hosts[k]];
        if hosts[k] !in issued { continue; }
        certRepo.expiries := certRepo.expiries[hosts[k] := issued[hosts[k]]];
      }
      assert hosts[..|hosts|] == hosts;
    }
  }
}
