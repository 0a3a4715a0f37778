/** Delivery of one alert event: concurrent fan-out to the enabled channels, each send tried up to three
    times, the decision to acknowledge, the dead-letter row of a partial failure, and redelivery by the
    stream. */
module AlertFanout {
  import opened Wrappers

  type ChannelId = nat

  datatype Channel = Channel(id: ChannelId, enabled: bool)

  /** What one delivery of the event meets: the two channel queries, None being an error (the second
      is asked when the first finds nothing); the answers to the tries of each channel's send, which end
      where its deadline does, and of which there are none when no sender can be built or the breaker is
      open; which of the dead-letter writes would succeed, and which would take effect although they
      report an error. */
  datatype Attempt = Attempt(
    forMonitor: Option<seq<Channel>>, forUser: Option<seq<Channel>>,
    answers: map<ChannelId, seq<Reply>>, marshals: bool, writes: set<nat>, lost: set<nat>)

  const SEND_TRIES := 3
  const DLQ_ATTEMPTS := 3
  const MAX_DELIVER := 10

  // ---- One send ----

  // The tries from `k` on end with one that goes through.
  predicate SucceedsFrom(answers: seq<Reply>, k: nat)
    decreases SEND_TRIES - k
  {
    k < SEND_TRIES && k < |answers| && (answers[k].Good? || SucceedsFrom(answers, k + 1))
  }

  // How often the tries from `k` on reach the channel.
  function LandedFrom(answers: seq<Reply>, k: nat): nat
    decreases SEND_TRIES - k
  {
    if k >= SEND_TRIES || k >= |answers| then 0
    else if answers[k].Good? then 1
    else (if answers[k].Lost? then 1 else 0) + LandedFrom(answers, k + 1)
  }

  function Answers(a: Attempt, id: ChannelId): seq<Reply> { if id in a.answers then a.answers[id] else [] }

  predicate Accepts(a: Attempt, id: ChannelId) { SucceedsFrom(Answers(a, id), 0) }

  function Landed(a: Attempt, id: ChannelId): nat { LandedFrom(Answers(a, id), 0) }

  // The answer to try `j` reports an error about an event that arrived.
  predicate LosesAt(answers: seq<Reply>, j: nat) { j < |answers| && answers[j].Lost? }

  /** A send succeeds exactly when one of the three tries does. If none of them is lost, it reaches the
      channel once when it succeeds and never when it fails; and never more than once if only the third
      is. */
  lemma SendLands(answers: seq<Reply>)
    ensures SucceedsFrom(answers, 0) <==> exists k :: 0 <= k < SEND_TRIES && k < |answers| && answers[k].Good?
    ensures SucceedsFrom(answers, 0) ==> LandedFrom(answers, 0) >= 1
    ensures (forall j: nat :: j < SEND_TRIES ==> !LosesAt(answers, j)) ==>
              LandedFrom(answers, 0) == if SucceedsFrom(answers, 0) then 1 else 0
    ensures (forall j: nat :: j < SEND_TRIES - 1 ==> !LosesAt(answers, j)) ==> LandedFrom(answers, 0) <= 1
  {
    assert !SucceedsFrom(answers, 3) && LandedFrom(answers, 3) == 0;
    assert SucceedsFrom(answers, 2) <==> 2 < |answers| && answers[2].Good?;
    assert LandedFrom(answers, 2) == if LosesAt(answers, 2) || SucceedsFrom(answers, 2) then 1 else 0;
    assert SucceedsFrom(answers, 1) <==> 1 < |answers| && (answers[1].Good? || SucceedsFrom(answers, 2));
    assert LandedFrom(answers, 1) == if 1 >= |answers| then 0 else if answers[1].Good? then 1
                                     else (if LosesAt(answers, 1) then 1 else 0) + LandedFrom(answers, 2);
    assert LosesAt(answers, 0) || !LosesAt(answers, 0);
  }

  // Try `k` is made, no try before it having gone through, and its event arrives.
  ghost predicate ArrivesAt(answers: seq<Reply>, k: nat) {
    k < |answers| && !answers[k].Bad? && forall j :: 0 <= j < k ==> !answers[j].Good?
  }

  /** A send reaches its channel once for each of its three tries that is made and arrives. */
  lemma LandedAre(answers: seq<Reply>)
    ensures LandedFrom(answers, 0) == (if ArrivesAt(answers, 0) then 1 else 0) +
                                      (if ArrivesAt(answers, 1) then 1 else 0) +
                                      (if ArrivesAt(answers, 2) then 1 else 0)
  {
    assert LandedFrom(answers, 3) == 0;
    assert LandedFrom(answers, 2) == if 2 < |answers| && !answers[2].Bad? then 1 else 0;
    assert LandedFrom(answers, 1) ==
           if 1 >= |answers| then 0 else if answers[1].Good? then 1
           else (if answers[1].Lost? then 1 else 0) + LandedFrom(answers, 2);
  }

  // ---- What a delivery comes to, whatever the order of completion ----

  function Targets(a: Attempt): Option<seq<Channel>> {
    if a.forMonitor.None? then a.forMonitor
    else if a.forMonitor.value == [] then a.forUser
    else a.forMonitor
  }

  function Enabled(cs: seq<Channel>): seq<ChannelId> {
    if cs == [] then [] else (if cs[0].enabled then [cs[0].id] else []) + Enabled(cs[1..])
  }

  lemma {:induction false} EnabledAre(cs: seq<Channel>, id: ChannelId)
    ensures multiset(Enabled(cs))[id] == multiset(cs)[Channel(id, true)]
  {
    if cs != [] {
      EnabledAre(cs[1..], id);
      assert cs == [cs[0]] + cs[1..];
      assert cs[0] == Channel(id, true) <==> cs[0].enabled && cs[0].id == id;
    }
  }

  function Where(ids: seq<ChannelId>, a: Attempt, sent: bool): seq<ChannelId> {
    if ids == [] then []
    else (if Accepts(a, ids[0]) == sent then [ids[0]] else []) + Where(ids[1..], a, sent)
  }

  function Recipients(a: Attempt): seq<ChannelId> {
    if Targets(a).None? then [] else Enabled(Targets(a).value)
  }

  // Some try of the channel's send goes through.
  ghost predicate GoesThrough(a: Attempt, id: ChannelId) {
    id in a.answers && exists k :: 0 <= k < 3 && k < |a.answers[id]| && a.answers[id][k].Good?
  }

  // How many of the three tries of the channel's send are made and arrive.
  ghost function Arrivals(a: Attempt, id: ChannelId): nat {
    if id !in a.answers then 0
    else (if ArrivesAt(a.answers[id], 0) then 1 else 0) + (if ArrivesAt(a.answers[id], 1) then 1 else 0) +
         (if ArrivesAt(a.answers[id], 2) then 1 else 0)
  }

  lemma SendIs(a: Attempt, id: ChannelId)
    ensures Accepts(a, id) <==> GoesThrough(a, id)
    ensures Landed(a, id) == Arrivals(a, id)
  {
    SendLands(Answers(a, id));
    LandedAre(Answers(a, id));
  }

  // The channel is listed and enabled: for the monitor, or for its user where the monitor has none.
  ghost predicate ListsEnabled(a: Attempt, id: ChannelId) {
    || (a.forMonitor.Some? && Channel(id, true) in a.forMonitor.value)
    || (a.forMonitor == Some([]) && a.forUser.Some? && Channel(id, true) in a.forUser.value)
  }

  /** Those who are tried are the enabled channels of the monitor, each as often as it is listed; if it
      lists no channel at all, those of its user. */
  lemma RecipientsAre(a: Attempt, id: ChannelId)
    ensures a.forMonitor.None? ==> Recipients(a) == []
    ensures a.forMonitor.Some? && a.forMonitor.value != [] ==>
              multiset(Recipients(a))[id] == multiset(a.forMonitor.value)[Channel(id, true)]
    ensures a.forMonitor == Some([]) && a.forUser.Some? ==>
              multiset(Recipients(a))[id] == multiset(a.forUser.value)[Channel(id, true)]
    ensures a.forMonitor == Some([]) && a.forUser.None? ==> Recipients(a) == []
    ensures id in Recipients(a) <==> ListsEnabled(a, id)
  {
    if Targets(a).Some? {
      var cs := Targets(a).value;
      EnabledAre(cs, id);
      assert id in multiset(Enabled(cs)) <==> Channel(id, true) in multiset(cs);
    }
  }

  // What arrives, a send that is tried again possibly more than once.
  function Got(ids: seq<ChannelId>, a: Attempt): multiset<ChannelId> {
    if ids == [] then multiset{} else Bag(ids[0], Landed(a, ids[0])) + Got(ids[1..], a)
  }

  lemma {:induction false} GotAre(ids: seq<ChannelId>, a: Attempt, c: ChannelId)
    ensures Got(ids, a)[c] == multiset(ids)[c] * Landed(a, c)
  {
    if ids != [] {
      var rest := multiset(ids[1..])[c];
      GotAre(ids[1..], a, c);
      FirstCounts(ids, c);
      OneMoreTime(rest, Landed(a, c));
      assert Got(ids, a)[c] == Bag(ids[0], Landed(a, ids[0]))[c] + rest * Landed(a, c);
    }
  }

  lemma FirstCounts(ids: seq<ChannelId>, c: ChannelId)
    requires ids != []
    ensures multiset(ids)[c] == multiset(ids[1..])[c] + if ids[0] == c then 1 else 0
  {
    assert ids == [ids[0]] + ids[1..];
  }

  lemma OneMoreTime(k: nat, n: nat)
    ensures (k + 1) * n == n + k * n && 0 * n == 0
  {
  }

  lemma {:induction false} WhereAre(ids: seq<ChannelId>, a: Attempt, sent: bool, c: ChannelId)
    ensures multiset(Where(ids, a, sent))[c] == if Accepts(a, c) == sent then multiset(ids)[c] else 0
  {
    if ids != [] {
      WhereAre(ids[1..], a, sent, c);
      FirstCounts(ids, c);
      assert Where(ids, a, sent) == (if Accepts(a, ids[0]) == sent then [ids[0]] else []) + Where(ids[1..], a, sent);
    }
  }

  function Bag(id: ChannelId, n: nat): multiset<ChannelId> { multiset{}[id := n] }

  lemma OneMoreInBag(bag: multiset<ChannelId>, id: ChannelId, n: nat)
    ensures (bag + Bag(id, n)) + multiset{id} == bag + Bag(id, n + 1)
  {
  }

  function Succeeding(a: Attempt): seq<ChannelId> { Where(Recipients(a), a, true) }

  function Failing(a: Attempt): seq<ChannelId> { Where(Recipients(a), a, false) }

  // The stream is told to try again exactly when the queries fail, or everyone who was tried failed.
  predicate Acks(a: Attempt) { Targets(a).Some? && (Succeeding(a) != [] || Failing(a) == []) }

  // The dead-letter rows that the attempts from `k` on leave: up to the first that succeeds, each that
  // takes effect leaves one.
  function CopiesFrom(a: Attempt, k: nat): nat
    decreases DLQ_ATTEMPTS - k
  {
    if k >= DLQ_ATTEMPTS then 0
    else if k in a.writes then 1
    else (if k in a.lost then 1 else 0) + CopiesFrom(a, k + 1)
  }

  function Copies(a: Attempt): nat { if a.marshals then CopiesFrom(a, 0) else 0 }

  // Attempt `k` is made, none before it having succeeded, and leaves a row.
  ghost predicate LeavesRow(a: Attempt, k: nat) {
    (k in a.writes || k in a.lost) && forall j: nat :: j < k ==> j !in a.writes
  }

  /** One row per attempt that is made and takes effect: never more than one unless a write that took
      effect reports an error; none exactly when no attempt takes effect. */
  lemma CopiesAre(a: Attempt)
    ensures Copies(a) == if !a.marshals then 0 else (if LeavesRow(a, 0) then 1 else 0) +
                                                    (if LeavesRow(a, 1) then 1 else 0) +
                                                    (if LeavesRow(a, 2) then 1 else 0)
    ensures a.lost == {} ==> Copies(a) <= 1
    ensures Copies(a) == 0 <==> !a.marshals || forall k :: 0 <= k < DLQ_ATTEMPTS ==> k !in a.writes && k !in a.lost
  {
    assert CopiesFrom(a, 3) == 0;
    assert CopiesFrom(a, 2) == if 2 in a.writes then 1 else if 2 in a.lost then 1 else 0;
    assert CopiesFrom(a, 1) == if 1 in a.writes then 1 else (if 1 in a.lost then 1 else 0) + CopiesFrom(a, 2);
  }

  function Repeat(row: DeadLetter, n: nat): seq<DeadLetter> { seq(n, k => row) }

  lemma {:induction false} WhereConcat(p: seq<ChannelId>, q: seq<ChannelId>, a: Attempt, sent: bool)
    ensures Where(p + q, a, sent) == Where(p, a, sent) + Where(q, a, sent)
  {
    if p == [] {
      assert p + q == q;
    } else {
      assert (p + q)[1..] == p[1..] + q;
      WhereConcat(p[1..], q, a, sent);
    }
  }

  lemma WhereOne(x: ChannelId, a: Attempt, sent: bool)
    ensures Where([x], a, sent) == if Accepts(a, x) == sent then [x] else []
  {
    assert [x][1..] == [];
  }

  lemma MiddleOut(p: seq<ChannelId>, m: seq<ChannelId>, q: seq<ChannelId>)
    ensures multiset(p + (m + q)) == multiset(p + q) + multiset(m)
  {
  }

  // Taking one element out of the middle takes it out of the group it belongs to.
  lemma WhereWithout(p: seq<ChannelId>, k: nat, a: Attempt, sent: bool)
    requires k < |p|
    ensures var rest := Where(p[..k] + p[k + 1..], a, sent);
            multiset(Where(p, a, sent)) ==
              multiset(rest) + (if Accepts(a, p[k]) == sent then multiset{p[k]} else multiset{})
  {
    var x := p[k];
    assert p == p[..k] + ([x] + p[k + 1..]);
    WhereConcat(p[..k], [x] + p[k + 1..], a, sent);
    WhereConcat([x], p[k + 1..], a, sent);
    WhereConcat(p[..k], p[k + 1..], a, sent);
    WhereOne(x, a, sent);
    MiddleOut(Where(p[..k], a, sent), Where([x], a, sent), Where(p[k + 1..], a, sent));
  }

  lemma {:induction false} WherePartitions(p: seq<ChannelId>, a: Attempt)
    ensures |Where(p, a, true)| + |Where(p, a, false)| == |p|
    ensures multiset(Where(p, a, true)) + multiset(Where(p, a, false)) == multiset(p)
  {
    if p != [] {
      WherePartitions(p[1..], a);
      assert p == [p[0]] + p[1..];
    }
  }

  lemma {:induction false} GotConcat(p: seq<ChannelId>, q: seq<ChannelId>, a: Attempt)
    ensures Got(p + q, a) == Got(p, a) + Got(q, a)
  {
    if p == [] {
      assert p + q == q;
    } else {
      assert (p + q)[1..] == p[1..] + q;
      GotConcat(p[1..], q, a);
    }
  }

  lemma GotWithout(p: seq<ChannelId>, k: nat, a: Attempt)
    requires k < |p|
    ensures Got(p, a) == Got(p[..k] + p[k + 1..], a) + Bag(p[k], Landed(a, p[k]))
  {
    assert p == p[..k] + ([p[k]] + p[k + 1..]);
    GotConcat(p[..k], [p[k]] + p[k + 1..], a);
    GotConcat([p[k]], p[k + 1..], a);
    GotConcat(p[..k], p[k + 1..], a);
    assert [p[k]][1..] == [];
    assert Got([p[k]], a) == Bag(p[k], Landed(a, p[k])) + Got([], a);
  }

  // With `running` still to finish, `delivered`, `sent` and `missed` are what the others came to,
  // `delivered` coming on top of what had arrived before.
  ghost predicate Progress(ids: seq<ChannelId>, running: seq<ChannelId>, a: Attempt, before: multiset<ChannelId>,
                           delivered: multiset<ChannelId>, sent: nat, missed: seq<ChannelId>) {
    && delivered + Got(running, a) == before + Got(ids, a)
    && sent + |Where(running, a, true)| == |Where(ids, a, true)|
    && multiset(missed) + multiset(Where(running, a, false)) == multiset(Where(ids, a, false))
  }

  lemma ProgressStep(ids: seq<ChannelId>, running: seq<ChannelId>, a: Attempt, before: multiset<ChannelId>,
                     delivered: multiset<ChannelId>, sent: nat, missed: seq<ChannelId>, k: nat)
    requires k < |running| && Progress(ids, running, a, before, delivered, sent, missed)
    ensures var rest := running[..k] + running[k + 1..];
            var delivered' := delivered + Bag(running[k], Landed(a, running[k]));
            if Accepts(a, running[k]) then Progress(ids, rest, a, before, delivered', sent + 1, missed)
            else Progress(ids, rest, a, before, delivered', sent, missed + [running[k]])
  {
    var rest, x := running[..k] + running[k + 1..], running[k];
    GotWithout(running, k, a);
    Arrived(delivered, Got(running, a), Got(rest, a), Bag(x, Landed(a, x)));
    WhereWithout(running, k, a, true);
    SizeWithout(Where(running, a, true), Where(rest, a, true), x, Accepts(a, x));
    WhereWithout(running, k, a, false);
    Missed(Where(running, a, false), Where(rest, a, false), missed, x, !Accepts(a, x));
  }

  lemma Arrived(done: multiset<ChannelId>, todo: multiset<ChannelId>, rest: multiset<ChannelId>,
                bag: multiset<ChannelId>)
    requires todo == rest + bag
    ensures done + todo == (done + bag) + rest
  {
  }

  lemma SizeWithout(p: seq<ChannelId>, q: seq<ChannelId>, x: ChannelId, one: bool)
    requires multiset(p) == multiset(q) + if one then multiset{x} else multiset{}
    ensures |p| == |q| + if one then 1 else 0
  {
    assert |multiset(p)| == |p| && |multiset(q)| == |q|;
  }

  lemma Missed(p: seq<ChannelId>, q: seq<ChannelId>, done: seq<ChannelId>, x: ChannelId, one: bool)
    requires multiset(p) == multiset(q) + if one then multiset{x} else multiset{}
    ensures multiset(done) + multiset(p) == multiset(if one then done + [x] else done) + multiset(q)
  {
  }

  lemma AllDone(ids: seq<ChannelId>, a: Attempt, before: multiset<ChannelId>, delivered: multiset<ChannelId>,
                sent: nat, missed: seq<ChannelId>)
    requires Progress(ids, [], a, before, delivered, sent, missed)
    ensures delivered == before + Got(ids, a) && sent == |Where(ids, a, true)|
    ensures multiset(missed) == multiset(Where(ids, a, false)) && |missed| == |Where(ids, a, false)|
    ensures |Where(ids, a, true)| + |missed| == |ids|
  {
    assert |multiset(missed)| == |missed| && |multiset(Where(ids, a, false))| == |Where(ids, a, false)|;
    WherePartitions(ids, a);
  }

  // ---- The service ----

  datatype DeadLetter = DeadLetter(failed: nat, total: nat, ids: seq<ChannelId>)

  class AlertService {
    var delivered: multiset<ChannelId>  // what the channels received, also from tries that reported an error
    var deadLetters: seq<DeadLetter>

    constructor ()
      ensures delivered == multiset{} && deadLetters == []
    {
      delivered, deadLetters := multiset{}, [];
    }

    /** Up to three tries, the first that goes through being the last. */
    method Send(id: ChannelId, a: Attempt) returns (ok: bool)
      modifies this`delivered
      ensures ok <==> Accepts(a, id)
      ensures delivered == old(delivered) + Bag(id, Landed(a, id))
      ensures ok <==> GoesThrough(a, id)
      ensures delivered == old(delivered) + multiset{}[id := Arrivals(a, id)]
    {
      var answers := Answers(a, id);
      SendIs(a, id);
      ghost var left := Landed(a, id);
      for k := 0 to SEND_TRIES
        invariant SucceedsFrom(answers, k) <==> Accepts(a, id)
        invariant left == LandedFrom(answers, k) <= Landed(a, id)
        invariant delivered == old(delivered) + Bag(id, Landed(a, id) - left)
      {
        if k >= |answers| { return false; }
        OneMoreInBag(old(delivered), id, Landed(a, id) - left);
        if answers[k].Good? {
          delivered := delivered + multiset{id};
          return true;
        }
        if answers[k].Lost? { delivered := delivered + multiset{id}; }
        left := LandedFrom(answers, k + 1);
      }
      return false;
    }

    /** The goroutines finish in any order: the loop picks whichever is next. */
    method FanOut(ids: seq<ChannelId>, a: Attempt) returns (sent: nat, failed: nat, failedIds: seq<ChannelId>)
      modifies this`delivered
      ensures sent + failed == |ids| && sent == |Where(ids, a, true)|
      ensures multiset(failedIds) == multiset(Where(ids, a, false)) && |failedIds| == failed
      ensures delivered == old(delivered) + Got(ids, a)
    {
      sent, failed, failedIds := 0, 0, [];
      var running := ids;
      ghost var before := delivered;
      while running != []
        invariant |failedIds| == failed
        invariant Progress(ids, running, a, before, delivered, sent, failedIds)
        decreases |running|
      {
        var k :| 0 <= k < |running|;
        var id := running[k];
        ProgressStep(ids, running, a, before, delivered, sent, failedIds, k);
        running := running[..k] + running[k + 1..];
        var ok := Send(id, a);
        if ok {
          sent := sent + 1;
        } else {
          failedIds := failedIds + [id];
          failed := failed + 1;
        }
      }
      AllDone(ids, a, before, delivered, sent, failedIds);
    }

    /** Three attempts, the first that succeeds being the last. */
    method WriteToDlq(row: DeadLetter, a: Attempt)
      modifies this`deadLetters
      ensures deadLetters == old(deadLetters) + Repeat(row, Copies(a))
    {
      if !a.marshals { return; }
      ghost var left := Copies(a);
      for attempt := 0 to DLQ_ATTEMPTS
        invariant left == CopiesFrom(a, attempt) <= Copies(a)
        invariant deadLetters == old(deadLetters) + Repeat(row, Copies(a) - left)
      {
        if attempt in a.writes {
          deadLetters := deadLetters + [row];
          return;
        }
        if attempt in a.lost { deadLetters := deadLetters + [row]; }
        left := CopiesFrom(a, attempt + 1);
      }
    }

    /** Tries the enabled channels and accounts for those that failed. */
    method Deliver(ids: seq<ChannelId>, a: Attempt) returns (ok: bool)
      modifies this
      ensures Delivered(ids, a, old(delivered), old(deadLetters), delivered, deadLetters, ok)
    {
      var sent, failed, failedIds := FanOut(ids, a);
      if sent == 0 && failed > 0 { return false; }
      if failed > 0 { WriteToDlq(DeadLetter(failed, sent + failed, failedIds), a); }
      return true;
    }

    /** One delivery. `ok` acknowledges the event. */
    method Handle(a: Attempt) returns (ok: bool)
      modifies this
      ensures Handled(a, old(delivered), old(deadLetters), delivered, deadLetters, ok)
      ensures var listed := if a.forMonitor.None? then [] else if a.forMonitor.value != [] then a.forMonitor.value
                            else if a.forUser.None? then [] else a.forUser.value;
              && Reaches(listed, a, old(delivered), old(deadLetters), delivered, deadLetters)
              && (ok <==> && a.forMonitor.Some? && (a.forMonitor.value == [] ==> a.forUser.Some?)
                          && ((forall id: ChannelId :: Channel(id, true) !in listed) ||
                              exists id: ChannelId :: Channel(id, true) in listed && GoesThrough(a, id)))
    {
      if a.forMonitor.None? { return false; }
      var channels := a.forMonitor.value;
      if channels == [] {
        if a.forUser.None? { return false; }
        channels := a.forUser.value;
      }
      if channels == [] { return true; }
      ghost var before, rowsBefore := delivered, deadLetters;
      ok := Deliver(Enabled(channels), a);
      DeliveredAre(channels, a, before, rowsBefore, delivered, deadLetters, ok);
    }
  }

  /** Trying `ids` acknowledges unless all of them failed; each send reaches its channel as often as its
      tries say; and an acknowledged failure leaves a row naming exactly the channels that failed, as often
      as its write takes effect. */
  ghost predicate Delivered(ids: seq<ChannelId>, a: Attempt, before: multiset<ChannelId>, rowsBefore: seq<DeadLetter>,
                            delivered: multiset<ChannelId>, rows: seq<DeadLetter>, ok: bool) {
    var good, bad := Where(ids, a, true), Where(ids, a, false);
    && (ok <==> good != [] || bad == [])
    && delivered == before + Got(ids, a)
    && if ok && bad != [] then
         && |rows| == |rowsBefore| + Copies(a) && rowsBefore <= rows
         && forall k :: |rowsBefore| <= k < |rows| ==> Names(rows[k], bad, |ids|)
       else rows == rowsBefore
  }

  /** Each enabled channel that is listed, and no other, receives what its tries say for each time it is
      listed; every new row names the enabled channels none of whose tries went through, as often as they are
      listed, and counts them and the enabled ones. */
  ghost predicate Reaches(listed: seq<Channel>, a: Attempt, before: multiset<ChannelId>, rowsBefore: seq<DeadLetter>,
                          delivered: multiset<ChannelId>, rows: seq<DeadLetter>) {
    && (forall id: ChannelId ::
          delivered[id] == before[id] + multiset(listed)[Channel(id, true)] * Arrivals(a, id))
    && (forall id: ChannelId :: Channel(id, true) !in listed ==> delivered[id] == before[id])
    && rowsBefore <= rows
    && (forall k | |rowsBefore| <= k < |rows| :: NamesMissed(listed, a, rows[k]))
  }

  ghost predicate NamesMissed(listed: seq<Channel>, a: Attempt, row: DeadLetter) {
    && row.failed == |row.ids| && row.total == |Enabled(listed)|
    && forall id: ChannelId ::
         multiset(row.ids)[id] == if GoesThrough(a, id) then 0 else multiset(listed)[Channel(id, true)]
  }

  lemma MissedAre(cs: seq<Channel>, a: Attempt, row: DeadLetter)
    requires Names(row, Where(Enabled(cs), a, false), |Enabled(cs)|)
    ensures NamesMissed(cs, a, row)
  {
    var ids := Enabled(cs);
    var bad := Where(ids, a, false);
    assert |multiset(row.ids)| == |row.ids| && |multiset(bad)| == |bad|;
    forall id: ChannelId
      ensures multiset(row.ids)[id] == if GoesThrough(a, id) then 0 else multiset(cs)[Channel(id, true)]
    {
      EnabledAre(cs, id);
      WhereAre(ids, a, false, id);
      SendIs(a, id);
    }
  }

  lemma OutcomeOf(cs: seq<Channel>, a: Attempt, id: ChannelId)
    ensures id in Where(Enabled(cs), a, true) <==> Channel(id, true) in cs && GoesThrough(a, id)
    ensures id in Where(Enabled(cs), a, false) <==> Channel(id, true) in cs && !GoesThrough(a, id)
  {
    var ids := Enabled(cs);
    EnabledAre(cs, id);
    WhereAre(ids, a, true, id);
    WhereAre(ids, a, false, id);
    SendIs(a, id);
    assert Channel(id, true) in multiset(cs) <==> Channel(id, true) in cs;
    assert id in multiset(Where(ids, a, true)) <==> id in Where(ids, a, true);
    assert id in multiset(Where(ids, a, false)) <==> id in Where(ids, a, false);
  }

  lemma DeliveredAre(cs: seq<Channel>, a: Attempt, before: multiset<ChannelId>, rowsBefore: seq<DeadLetter>,
                     delivered: multiset<ChannelId>, rows: seq<DeadLetter>, ok: bool)
    requires Delivered(Enabled(cs), a, before, rowsBefore, delivered, rows, ok)
    ensures Reaches(cs, a, before, rowsBefore, delivered, rows)
    ensures ok <==> (forall id: ChannelId :: Channel(id, true) !in cs) ||
                    exists id: ChannelId :: Channel(id, true) in cs && GoesThrough(a, id)
  {
    var ids := Enabled(cs);
    var good, bad := Where(ids, a, true), Where(ids, a, false);
    forall id: ChannelId
      ensures delivered[id] == before[id] + multiset(cs)[Channel(id, true)] * Arrivals(a, id)
      ensures Channel(id, true) !in cs ==> delivered[id] == before[id]
    {
      SendIs(a, id);
      EnabledAre(cs, id);
      GotAre(ids, a, id);
      OneMoreTime(0, Landed(a, id));
    }
    forall k | |rowsBefore| <= k < |rows| ensures NamesMissed(cs, a, rows[k]) { MissedAre(cs, a, rows[k]); }
    forall id: ChannelId
      ensures id in good <==> Channel(id, true) in cs && GoesThrough(a, id)
      ensures id in bad <==> Channel(id, true) in cs && !GoesThrough(a, id)
    {
      OutcomeOf(cs, a, id);
    }
    if good != [] {
      assert good[0] in good;
    } else if bad != [] {
      assert bad[0] in bad;
    }
  }

  predicate Names(row: DeadLetter, bad: seq<ChannelId>, total: nat) {
    multiset(row.ids) == multiset(bad) && row.failed == |bad| && row.total == total
  }

  ghost predicate Handled(a: Attempt, before: multiset<ChannelId>, rowsBefore: seq<DeadLetter>,
                          delivered: multiset<ChannelId>, rows: seq<DeadLetter>, ok: bool) {
    if Targets(a).None? then !ok && delivered == before && rows == rowsBefore
    else Delivered(Recipients(a), a, before, rowsBefore, delivered, rows, ok)
  }

  // ---- Redelivery ----

  function Acked(tries: seq<Attempt>): (acks: seq<bool>)
    ensures |acks| == |tries|
  {
    seq(|tries|, k requires 0 <= k < |tries| => Acks(tries[k]))
  }

  // Per delivery, the channels whose send succeeds.
  function Succeeded(tries: seq<Attempt>): (bags: seq<multiset<ChannelId>>)
    ensures |bags| == |tries|
  {
    seq(|tries|, k requires 0 <= k < |tries| => multiset(Succeeding(tries[k])))
  }

  // Per delivery, what arrives at the channels.
  function Received(tries: seq<Attempt>): (bags: seq<multiset<ChannelId>>)
    ensures |bags| == |tries|
  {
    seq(|tries|, k requires 0 <= k < |tries| => Got(Recipients(tries[k]), tries[k]))
  }

  // How many deliveries the stream makes: again after each that is not acknowledged, up to its limit.
  function Used(acks: seq<bool>, limit: nat): (n: nat)
    ensures n <= |acks| && n <= limit
  {
    if acks == [] || limit == 0 then 0 else if acks[0] then 1 else 1 + Used(acks[1..], limit - 1)
  }

  /** The stream stops at the first acknowledgement, or at the limit, or when nothing is tried any more. */
  lemma {:induction false} UsedIs(acks: seq<bool>, limit: nat, n: nat)
    ensures n == Used(acks, limit) <==>
            && n <= |acks| && n <= limit && (forall k :: 0 <= k < n - 1 ==> !acks[k])
            && (n == |acks| || n == limit || (n > 0 && acks[n - 1]))
  {
    if acks != [] && limit > 0 && n > 0 && !acks[0] {
      var rest := acks[1..];
      UsedIs(rest, limit - 1, n - 1);
      assert (forall k :: 0 <= k < n - 1 && k < |acks| ==> !acks[k]) <==>
             (forall k :: 0 <= k < n - 2 && k < |rest| ==> !rest[k]) by {
        assert forall k :: 0 <= k < |rest| ==> rest[k] == acks[k + 1];
        assert forall k :: 0 < k < |acks| ==> acks[k] == rest[k - 1];
      }
    }
  }

  function Total(bags: seq<multiset<ChannelId>>): multiset<ChannelId> {
    if bags == [] then multiset{} else Total(bags[..|bags| - 1]) + bags[|bags| - 1]
  }

  lemma TotalNext(bags: seq<multiset<ChannelId>>, n: nat)
    requires n < |bags|
    ensures Total(bags[..n + 1]) == Total(bags[..n]) + bags[n]
  {
    assert bags[..n + 1][..n] == bags[..n];
  }

  lemma {:induction false} TotalIsLast(bags: seq<multiset<ChannelId>>)
    requires bags != [] && forall k :: 0 <= k < |bags| - 1 ==> bags[k] == multiset{}
    ensures Total(bags) == bags[|bags| - 1]
  {
    if |bags| == 1 {
      assert Total(bags[..0]) == multiset{};
    } else {
      TotalIsLast(bags[..|bags| - 1]);
    }
  }

  predicate Distinct(ids: seq<ChannelId>) {
    forall j, k :: 0 <= j < k < |ids| ==> ids[j] != ids[k]
  }

  ghost predicate Once(bag: multiset<ChannelId>) { forall c: ChannelId :: bag[c] <= 1 }

  // The channel queries join on a key: no channel is listed twice.
  predicate ListsOnce(a: Attempt) { Distinct(Recipients(a)) }

  lemma {:induction false} WhereDistinct(p: seq<ChannelId>, a: Attempt, sent: bool)
    requires Distinct(p)
    ensures Distinct(Where(p, a, sent)) && forall x :: x in Where(p, a, sent) ==> x in p
  {
    if p != [] {
      assert forall k :: 0 <= k < |p[1..]| ==> p[1..][k] == p[k + 1];
      WhereDistinct(p[1..], a, sent);
      assert p[0] !in Where(p[1..], a, sent);
    }
  }

  lemma {:induction false} DistinctOnce(ids: seq<ChannelId>)
    requires Distinct(ids)
    ensures Once(multiset(ids))
  {
    if ids != [] {
      DistinctOnce(ids[1..]);
      assert ids == [ids[0]] + ids[1..];
      assert ids[0] !in ids[1..];
    }
  }

  lemma SucceedsOnce(a: Attempt)
    requires ListsOnce(a)
    ensures Once(multiset(Succeeding(a)))
  {
    WhereDistinct(Recipients(a), a, true);
    DistinctOnce(Succeeding(a));
  }

  // If only the last delivery has anything in its bag, that is all there is.
  lemma OnlyTheLastDelivers(acks: seq<bool>, bags: seq<multiset<ChannelId>>, limit: nat)
    requires |acks| == |bags| && forall k :: 0 <= k < |acks| && !acks[k] ==> bags[k] == multiset{}
    ensures var n := Used(acks, limit);
            Total(bags[..n]) == if n > 0 then bags[n - 1] else multiset{}
  {
    var n := Used(acks, limit);
    UsedIs(acks, limit, n);
    if n > 0 { TotalIsLast(bags[..n]); }
  }

  /** Over all deliveries of one event, no channel's send succeeds twice, and none has succeeded as long
      as the event is not acknowledged. */
  lemma NoChannelTwice(tries: seq<Attempt>)
    requires forall k :: 0 <= k < |tries| ==> ListsOnce(tries[k])
    ensures var n := Used(Acked(tries), MAX_DELIVER);
            var all := Total(Succeeded(tries)[..n]);
            Once(all) && (n > 0 && !Acks(tries[n - 1]) ==> all == multiset{})
  {
    var acks, bags := Acked(tries), Succeeded(tries);
    forall k | 0 <= k < |acks| && !acks[k] ensures bags[k] == multiset{} { NackMeansNothingSent(tries[k]); }
    OnlyTheLastDelivers(acks, bags, MAX_DELIVER);
    var n := Used(acks, MAX_DELIVER);
    if n > 0 {
      SucceedsOnce(tries[n - 1]);
      assert acks[n - 1] == Acks(tries[n - 1]) && bags[n - 1] == multiset(Succeeding(tries[n - 1]));
    }
  }

  lemma NackMeansNothingSent(a: Attempt)
    requires !Acks(a)
    ensures Succeeding(a) == []
  {
  }

  // No try of this delivery reports an error about an event that arrived.
  ghost predicate LosesNothing(a: Attempt) {
    forall c: ChannelId, j: nat :: j < SEND_TRIES ==> !LosesAt(Answers(a, c), j)
  }

  /** What arrives is what is sent with success, unless a try that arrives reports an error. */
  lemma {:induction false} GotIsWhereSent(ids: seq<ChannelId>, a: Attempt)
    requires LosesNothing(a)
    ensures Got(ids, a) == multiset(Where(ids, a, true))
  {
    if ids != [] {
      GotIsWhereSent(ids[1..], a);
      SendLands(Answers(a, ids[0]));
      assert Where(ids, a, true) == (if Accepts(a, ids[0]) then [ids[0]] else []) + Where(ids[1..], a, true);
    }
  }

  /** As long as no such try is met, no channel receives the event twice, and nobody has received it
      while it is not acknowledged. */
  lemma NobodyReceivesTwice(tries: seq<Attempt>)
    requires forall k :: 0 <= k < |tries| ==> ListsOnce(tries[k]) && LosesNothing(tries[k])
    ensures var n := Used(Acked(tries), MAX_DELIVER);
            var all := Total(Received(tries)[..n]);
            Once(all) && (n > 0 && !Acks(tries[n - 1]) ==> all == multiset{})
  {
    NoChannelTwice(tries);
    forall k | 0 <= k < |tries| ensures Received(tries)[k] == Succeeded(tries)[k] {
      GotIsWhereSent(Recipients(tries[k]), tries[k]);
    }
    assert Received(tries) == Succeeded(tries);
  }

  /** What the last delivery of a consumed event leaves: acknowledged, every enabled channel's send has
      succeeded and arrived, or the channel is in every dead-letter row, or none could be written; not
      acknowledged, there is no row. There is one row per write that takes effect. */
  ghost predicate Accounted(a: Attempt, delivered: multiset<ChannelId>, rows: seq<DeadLetter>, ok: bool) {
    && (ok <==> Acks(a))
    && (!ok ==> rows == [])
    && (ok ==> forall c :: c in Recipients(a) ==>
          if Accepts(a, c) then c in delivered
          else if Copies(a) == 0 then rows == []
          else rows != [] && forall k :: 0 <= k < |rows| ==> c in rows[k].ids)
    && (ok ==> |rows| == if Failing(a) == [] then 0 else Copies(a))
  }

  // After `used` deliveries.
  ghost predicate Outcome(tries: seq<Attempt>, used: nat, acked: bool, delivered: multiset<ChannelId>,
                          rows: seq<DeadLetter>) {
    && used <= |tries| && delivered == Total(Received(tries)[..used])
    && (forall k :: 0 <= k < used - 1 ==> !Acks(tries[k]))
    && if used == 0 then !acked && rows == [] else Accounted(tries[used - 1], delivered, rows, acked)
  }

  /** Consumes one event to the end: until it is acknowledged or the stream gives up. */
  method Consume(service: AlertService, tries: seq<Attempt>) returns (acked: bool, used: nat)
    requires service.delivered == multiset{} && service.deadLetters == []
    modifies service
    ensures used == Used(Acked(tries), 10)
    ensures Outcome(tries, used, acked, service.delivered, service.deadLetters)
    ensures OnlyEnabled(tries, used, service.delivered, service.deadLetters)
  {
    used, acked := 0, false;
    while used < |tries| && used < MAX_DELIVER && !acked
      invariant used <= MAX_DELIVER
      invariant Outcome(tries, used, acked, service.delivered, service.deadLetters)
      invariant OnlyEnabled(tries, used, service.delivered, service.deadLetters)
      decreases |tries| - used
    {
      ghost var before, rowsBefore := service.delivered, service.deadLetters;
      acked := service.Handle(tries[used]);
      ConsumedNext(tries, used, before, rowsBefore, service.delivered, service.deadLetters, acked);
      used := used + 1;
    }
    OutcomeUsed(tries, used, acked, service.delivered, service.deadLetters);
  }

  // Whoever received the event is listed as enabled by one of the deliveries, and whoever a dead-letter
  // row names by the last.
  ghost predicate OnlyEnabled(tries: seq<Attempt>, used: nat, delivered: multiset<ChannelId>, rows: seq<DeadLetter>) {
    && used <= |tries|
    && (forall id: ChannelId :: id in delivered ==> exists k :: 0 <= k < used && ListsEnabled(tries[k], id))
    && (forall id: ChannelId, r | 0 <= r < |rows| && id in rows[r].ids :: used > 0 && ListsEnabled(tries[used - 1], id))
  }

  lemma OnlyEnabledNext(tries: seq<Attempt>, used: nat, before: multiset<ChannelId>, delivered: multiset<ChannelId>,
                        rows: seq<DeadLetter>, ok: bool)
    requires used < |tries| && OnlyEnabled(tries, used, before, [])
    requires Handled(tries[used], before, [], delivered, rows, ok)
    ensures OnlyEnabled(tries, used + 1, delivered, rows)
  {
    forall id: ChannelId | id in delivered ensures exists k :: 0 <= k < used + 1 && ListsEnabled(tries[k], id) {
      ReachesEnabled(tries[used], before, delivered, rows, ok, id);
      if id !in before { assert ListsEnabled(tries[used], id); }
    }
    forall id: ChannelId, r | 0 <= r < |rows| && id in rows[r].ids ensures ListsEnabled(tries[used], id) {
      ReachesEnabled(tries[used], before, delivered, rows, ok, id);
    }
  }

  lemma ReachesEnabled(a: Attempt, before: multiset<ChannelId>, delivered: multiset<ChannelId>, rows: seq<DeadLetter>,
                       ok: bool, id: ChannelId)
    requires Handled(a, before, [], delivered, rows, ok)
    ensures id in delivered ==> id in before || ListsEnabled(a, id)
    ensures forall r | 0 <= r < |rows| && id in rows[r].ids :: ListsEnabled(a, id)
  {
    if Targets(a).Some? {
      var ids := Recipients(a);
      RecipientsAre(a, id);
      GotAre(ids, a, id);
      WhereAre(ids, a, false, id);
      assert id in multiset(ids) <==> ListsEnabled(a, id);
      forall r | 0 <= r < |rows| && id in rows[r].ids ensures ListsEnabled(a, id) {
        assert Names(rows[r], Where(ids, a, false), |ids|);
        assert id in multiset(rows[r].ids);
      }
    }
  }

  lemma ConsumedNext(tries: seq<Attempt>, used: nat, before: multiset<ChannelId>, rowsBefore: seq<DeadLetter>,
                     delivered: multiset<ChannelId>, rows: seq<DeadLetter>, ok: bool)
    requires used < |tries| && Outcome(tries, used, false, before, rowsBefore)
    requires OnlyEnabled(tries, used, before, rowsBefore)
    requires Handled(tries[used], before, rowsBefore, delivered, rows, ok)
    ensures Outcome(tries, used + 1, ok, delivered, rows) && OnlyEnabled(tries, used + 1, delivered, rows)
  {
    NotYetAcked(tries, used, before, rowsBefore);
    HandledNext(tries, used, before, delivered, rows, ok);
    OnlyEnabledNext(tries, used, before, delivered, rows, ok);
  }

  lemma NotYetAcked(tries: seq<Attempt>, used: nat, delivered: multiset<ChannelId>, rows: seq<DeadLetter>)
    requires Outcome(tries, used, false, delivered, rows)
    ensures rows == []
  {
  }

  lemma OutcomeUsed(tries: seq<Attempt>, used: nat, acked: bool, delivered: multiset<ChannelId>,
                    rows: seq<DeadLetter>)
    requires Outcome(tries, used, acked, delivered, rows) && used <= MAX_DELIVER
    requires acked || used == |tries| || used == MAX_DELIVER
    ensures used == Used(Acked(tries), MAX_DELIVER)
  {
    var acks := Acked(tries);
    assert forall k :: 0 <= k < |acks| ==> acks[k] == Acks(tries[k]);
    assert acked ==> used > 0 && acks[used - 1];
    UsedIs(acks, MAX_DELIVER, used);
  }

  lemma OutcomeBefore(tries: seq<Attempt>, used: nat, delivered: multiset<ChannelId>)
    requires Outcome(tries, used, false, delivered, [])
    ensures used <= |tries| && delivered == Total(Received(tries)[..used])
    ensures forall k :: 0 <= k < used ==> !Acks(tries[k])
  {
    assert used > 0 ==> Accounted(tries[used - 1], delivered, [], false);
  }

  lemma HandledNext(tries: seq<Attempt>, used: nat, before: multiset<ChannelId>, delivered: multiset<ChannelId>,
                    rows: seq<DeadLetter>, ok: bool)
    requires used < |tries| && Outcome(tries, used, false, before, [])
    requires Handled(tries[used], before, [], delivered, rows, ok)
    ensures Outcome(tries, used + 1, ok, delivered, rows)
  {
    OutcomeBefore(tries, used, before);
    HandledAccounted(tries[used], before, delivered, rows, ok);
    OutcomeAfter(tries, used, before, delivered, rows, ok);
  }

  lemma OutcomeAfter(tries: seq<Attempt>, used: nat, before: multiset<ChannelId>, delivered: multiset<ChannelId>,
                     rows: seq<DeadLetter>, ok: bool)
    requires used < |tries| && before == Total(Received(tries)[..used])
    requires forall k :: 0 <= k < used ==> !Acks(tries[k])
    requires delivered == before + Got(Recipients(tries[used]), tries[used])
    requires Accounted(tries[used], delivered, rows, ok)
    ensures Outcome(tries, used + 1, ok, delivered, rows)
  {
    TotalNext(Received(tries), used);
  }

  lemma HandledAccounted(a: Attempt, before: multiset<ChannelId>, delivered: multiset<ChannelId>,
                         rows: seq<DeadLetter>, ok: bool)
    requires Handled(a, before, [], delivered, rows, ok)
    ensures Accounted(a, delivered, rows, ok) && delivered == before + Got(Recipients(a), a)
  {
    if Targets(a).Some? {
      forall c | ok && c in Recipients(a)
        ensures if Accepts(a, c) then c in delivered
                else if Copies(a) == 0 then rows == []
                else rows != [] && forall k :: 0 <= k < |rows| ==> c in rows[k].ids
      {
        Reached(a, before, delivered, rows, c);
      }
    }
  }

  lemma Reached(a: Attempt, before: multiset<ChannelId>, delivered: multiset<ChannelId>, rows: seq<DeadLetter>,
                c: ChannelId)
    requires Targets(a).Some? && Delivered(Recipients(a), a, before, [], delivered, rows, true)
    requires c in Recipients(a)
    ensures if Accepts(a, c) then c in delivered
            else if Copies(a) == 0 then rows == []
            else rows != [] && forall k :: 0 <= k < |rows| ==> c in rows[k].ids
  {
    if Accepts(a, c) {
      Arrives(Recipients(a), a, c);
    } else {
      var bad := Where(Recipients(a), a, false);
      FailsIn(Recipients(a), a, c);
      forall k | 0 <= k < |rows| ensures c in rows[k].ids {
        assert Names(rows[k], bad, |Recipients(a)|);
        assert c in multiset(rows[k].ids);
      }
    }
  }

  lemma {:induction false} Arrives(ids: seq<ChannelId>, a: Attempt, c: ChannelId)
    requires c in ids && Accepts(a, c)
    ensures c in Got(ids, a)
  {
    SendLands(Answers(a, c));
    if c != ids[0] { Arrives(ids[1..], a, c); }
  }

  lemma {:induction false} FailsIn(ids: seq<ChannelId>, a: Attempt, c: ChannelId)
    requires c in ids && !Accepts(a, c)
    ensures c in Where(ids, a, false)
  {
    if c != ids[0] { FailsIn(ids[1..], a, c); }
  }
}
