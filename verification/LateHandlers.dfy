/** What can make a channel receive one event twice: a handler whose acknowledgement does not reach the
    stream in time, after which the event is delivered again whatever the handler comes to; and a try to
    send that reports an error although the event has arrived, after which the sender tries again, or the
    stream does. */
module LateHandlers {
  import opened Wrappers
  import opened AlertFanout

  // The deliveries that end it: acknowledged, and in time.
  function Ends(tries: seq<Attempt>, late: seq<bool>): (acks: seq<bool>)
    requires |late| == |tries|
    ensures |acks| == |tries|
  {
    seq(|tries|, k requires 0 <= k < |tries| => Acks(tries[k]) && !late[k])
  }

  function Deliveries(tries: seq<Attempt>, late: seq<bool>): (n: nat)
    requires |late| == |tries|
    ensures n <= |tries| && n <= MAX_DELIVER
  {
    Used(Ends(tries, late), MAX_DELIVER)
  }

  function AllReceived(tries: seq<Attempt>, late: seq<bool>): multiset<ChannelId>
    requires |late| == |tries|
  {
    Total(Received(tries)[..Deliveries(tries, late)])
  }

  function AllSucceeded(tries: seq<Attempt>, late: seq<bool>): multiset<ChannelId>
    requires |late| == |tries|
  {
    Total(Succeeded(tries)[..Deliveries(tries, late)])
  }

  // Delivery `k` of `n` can be followed by another.
  predicate Followed(n: nat, k: nat) { k < n - 1 && k < MAX_DELIVER - 1 }

  // A handler that is late while another delivery can follow.
  predicate LateAt(late: seq<bool>, k: nat) { Followed(|late|, k) && late[k] }

  /** A try to send: which delivery, which channel, which of the three. */
  datatype Try = Try(delivery: nat, channel: ChannelId, k: nat)

  // The try can be made at all, and be followed by another, of the same delivery or of the next.
  predicate Repeated(n: nat, t: Try) {
    t.k < SEND_TRIES && t.delivery < n && t.delivery < MAX_DELIVER && (t.k < SEND_TRIES - 1 || Followed(n, t.delivery))
  }

  ghost predicate InTime(late: seq<bool>) { forall k: nat :: !LateAt(late, k) }

  ghost predicate LossesAreLast(n: nat, lost: set<Try>) { forall t :: t in lost ==> !Repeated(n, t) }

  ghost predicate AllListOnce(tries: seq<Attempt>) { forall k :: 0 <= k < |tries| ==> ListsOnce(tries[k]) }

  predicate Loses(tries: seq<Attempt>, t: Try) {
    t.delivery < |tries| && LosesAt(Answers(tries[t.delivery], t.channel), t.k)
  }

  // No tries but these report an error about an event that has arrived.
  ghost predicate LosesOnly(tries: seq<Attempt>, lost: set<Try>) { forall t :: Loses(tries, t) ==> t in lost }

  // ---- In time, and without a loss that can be repeated ----

  // A delivery that another one follows was not acknowledged, or its handler was late.
  lemma NotEnded(tries: seq<Attempt>, late: seq<bool>, k: nat)
    requires |late| == |tries| && k < Deliveries(tries, late) - 1
    ensures Followed(|late|, k) && (!Acks(tries[k]) || LateAt(late, k))
  {
    var ends := Ends(tries, late);
    UsedIs(ends, MAX_DELIVER, Used(ends, MAX_DELIVER));
    assert !ends[k];
  }

  // A delivery that nobody acknowledges and that loses nothing reaches nobody.
  lemma {:induction false} NothingArrives(ids: seq<ChannelId>, a: Attempt)
    requires LosesNothing(a) && Where(ids, a, true) == []
    ensures Got(ids, a) == multiset{}
  {
    GotIsWhereSent(ids, a);
  }

  // A delivery that loses no try but the last of a send reaches nobody twice.
  lemma {:induction false} ArrivesOnce(ids: seq<ChannelId>, a: Attempt)
    requires Distinct(ids)
    requires forall c: ChannelId, j: nat :: j < SEND_TRIES - 1 ==> !LosesAt(Answers(a, c), j)
    ensures Once(Got(ids, a)) && forall c :: c in Got(ids, a) ==> c in ids
  {
    if ids != [] {
      assert forall k :: 0 <= k < |ids[1..]| ==> ids[1..][k] == ids[k + 1];
      ArrivesOnce(ids[1..], a);
      SendLands(Answers(a, ids[0]));
      assert ids[0] !in Got(ids[1..], a);
    }
  }

  lemma EarlyLosesNothing(tries: seq<Attempt>, lost: set<Try>, k: nat)
    requires LosesOnly(tries, lost) && LossesAreLast(|tries|, lost) && k < |tries| && Followed(|tries|, k)
    ensures LosesNothing(tries[k])
  {
    forall c: ChannelId, j: nat | j < SEND_TRIES ensures !LosesAt(Answers(tries[k], c), j) {
      assert Repeated(|tries|, Try(k, c, j)) && (Loses(tries, Try(k, c, j)) ==> Try(k, c, j) in lost);
    }
  }

  lemma OnlyLastTriesLose(tries: seq<Attempt>, lost: set<Try>, k: nat)
    requires LosesOnly(tries, lost) && LossesAreLast(|tries|, lost) && k < |tries| && k < MAX_DELIVER
    ensures forall c: ChannelId, j: nat :: j < SEND_TRIES - 1 ==> !LosesAt(Answers(tries[k], c), j)
  {
    forall c: ChannelId, j: nat | j < SEND_TRIES - 1 ensures !LosesAt(Answers(tries[k], c), j) {
      assert Repeated(|tries|, Try(k, c, j)) && (Loses(tries, Try(k, c, j)) ==> Try(k, c, j) in lost);
    }
  }

  /** Nobody receives the event twice if no late handler that can be followed delivers anything, and no
      loss can be repeated. */
  lemma NobodyReceivesTwiceUnlessLate(tries: seq<Attempt>, late: seq<bool>, lost: set<Try>)
    requires |late| == |tries| && AllListOnce(tries) && LosesOnly(tries, lost) && LossesAreLast(|late|, lost)
    requires forall k :: 0 <= k < |tries| && LateAt(late, k) ==> Succeeding(tries[k]) == []
    ensures Once(AllReceived(tries, late))
  {
    var n := Deliveries(tries, late);
    var bags := Received(tries);
    if n > 0 {
      forall k | 0 <= k < n - 1 ensures bags[..n][k] == multiset{} {
        NotEnded(tries, late, k);
        if !Acks(tries[k]) { NackMeansNothingSent(tries[k]); }
        EarlyLosesNothing(tries, lost, k);
        NothingArrives(Recipients(tries[k]), tries[k]);
      }
      TotalIsLast(bags[..n]);
      OnlyLastTriesLose(tries, lost, n - 1);
      ArrivesOnce(Recipients(tries[n - 1]), tries[n - 1]);
    }
  }

  /** No channel's send succeeds twice if no late handler that can be followed sends anything with success. */
  lemma NoChannelTwiceUnlessLate(tries: seq<Attempt>, late: seq<bool>)
    requires |late| == |tries| && AllListOnce(tries)
    requires forall k :: 0 <= k < |tries| && LateAt(late, k) ==> Succeeding(tries[k]) == []
    ensures Once(AllSucceeded(tries, late))
  {
    var n := Deliveries(tries, late);
    var bags := Succeeded(tries);
    if n > 0 {
      forall k | 0 <= k < n - 1 ensures bags[..n][k] == multiset{} {
        NotEnded(tries, late, k);
        if !Acks(tries[k]) { NackMeansNothingSent(tries[k]); }
      }
      TotalIsLast(bags[..n]);
      SucceedsOnce(tries[n - 1]);
    }
  }

  // ---- One channel is enough to receive it twice ----

  function OneChannel(c: ChannelId, answers: seq<Reply>): Attempt {
    Attempt(Some([Channel(c, true)]), Some([]), map[c := answers], true, {}, {})
  }

  lemma OneChannelIs(c: ChannelId, answers: seq<Reply>)
    ensures var a := OneChannel(c, answers);
            && Recipients(a) == [c] && Got(Recipients(a), a) == Bag(c, LandedFrom(answers, 0))
            && Succeeding(a) == (if SucceedsFrom(answers, 0) then [c] else [])
            && (Acks(a) <==> SucceedsFrom(answers, 0))
  {
    var a, cs := OneChannel(c, answers), [Channel(c, true)];
    assert cs[1..] == [] && Enabled(cs) == [c] + Enabled([]);
    assert Recipients(a) == [c] && Answers(a, c) == answers;
    WhereOne(c, a, true);
    WhereOne(c, a, false);
    assert [c][1..] == [] && Got([c], a) == Bag(c, Landed(a, c)) + Got([], a);
  }

  // The channel refuses before delivery `k`, meets `answers` in it, and accepts from there on.
  function Script(k: nat, answers: seq<Reply>, i: nat): seq<Reply> {
    if i < k then [Bad] else if i == k then answers else [Good]
  }

  function OneChannelTries(n: nat, c: ChannelId, k: nat, answers: seq<Reply>): (tries: seq<Attempt>)
    ensures |tries| == n
  {
    seq(n, i requires 0 <= i => OneChannel(c, Script(k, answers, i)))
  }

  lemma RefusedAndAccepted()
    ensures !SucceedsFrom([Bad], 0) && SucceedsFrom([Good], 0) && LandedFrom([Good], 0) == 1
  {
    assert !SucceedsFrom([Bad], 1);
  }

  lemma ScriptedTry(n: nat, c: ChannelId, k: nat, answers: seq<Reply>, i: nat)
    requires i < n
    ensures var tries, script := OneChannelTries(n, c, k, answers), Script(k, answers, i);
            && ListsOnce(tries[i]) && (Acks(tries[i]) <==> SucceedsFrom(script, 0))
            && Received(tries)[i] == Bag(c, LandedFrom(script, 0))
            && Succeeded(tries)[i] == Bag(c, if SucceedsFrom(script, 0) then 1 else 0)
            && forall t :: Loses(tries, t) && t.delivery == i ==> t.channel == c && LosesAt(script, t.k)
  {
    OneChannelIs(c, Script(k, answers, i));
  }

  // One channel loses nothing that its script does not lose.
  lemma ScriptLoses(n: nat, c: ChannelId, k: nat, answers: seq<Reply>)
    ensures var tries := OneChannelTries(n, c, k, answers);
            && AllListOnce(tries)
            && forall t :: Loses(tries, t) ==> t.delivery == k && t.channel == c && LosesAt(answers, t.k)
  {
    var tries := OneChannelTries(n, c, k, answers);
    forall i | 0 <= i < n ensures ListsOnce(tries[i]) { ScriptedTry(n, c, k, answers, i); }
    forall t | Loses(tries, t) ensures t.delivery == k && t.channel == c && LosesAt(answers, t.k) {
      ScriptedTry(n, c, k, answers, t.delivery);
      assert !LosesAt([Bad], t.k) && !LosesAt([Good], t.k);
    }
  }

  // The deliveries go on through `k` as long as none before it ends them.
  lemma GoesOn(tries: seq<Attempt>, late: seq<bool>, k: nat)
    requires |late| == |tries| && k < |tries| && k < MAX_DELIVER
    requires forall i :: 0 <= i < k ==> !Acks(tries[i]) || late[i]
    ensures Deliveries(tries, late) > k
  {
    var ends := Ends(tries, late);
    var n := Used(ends, MAX_DELIVER);
    UsedIs(ends, MAX_DELIVER, n);
    assert forall i :: 0 <= i < k ==> !ends[i];
  }

  lemma {:induction false} TotalHas(bags: seq<multiset<ChannelId>>, k: nat, c: ChannelId)
    requires k < |bags|
    ensures Total(bags)[c] >= bags[k][c]
    ensures k + 1 < |bags| ==> Total(bags)[c] >= bags[k][c] + bags[k + 1][c]
  {
    var init := bags[..|bags| - 1];
    if k < |init| { TotalHas(init, k, c); }
  }

  // Delivery `k` is made, and so is the next if it does not end them.
  lemma ScriptRuns(late: seq<bool>, c: ChannelId, k: nat, answers: seq<Reply>)
    requires k < |late| && k < MAX_DELIVER
    ensures var tries := OneChannelTries(|late|, c, k, answers);
            && Deliveries(tries, late) > k
            && (Followed(|late|, k) && (late[k] || !SucceedsFrom(answers, 0)) ==> Deliveries(tries, late) > k + 1)
  {
    var tries := OneChannelTries(|late|, c, k, answers);
    RefusedAndAccepted();
    forall i | 0 <= i < k ensures !Acks(tries[i]) { ScriptedTry(|late|, c, k, answers, i); }
    ScriptedTry(|late|, c, k, answers, k);
    GoesOn(tries, late, k);
    if Followed(|late|, k) && (late[k] || !SucceedsFrom(answers, 0)) { GoesOn(tries, late, k + 1); }
  }

  lemma LateTwice(late: seq<bool>, k: nat) returns (tries: seq<Attempt>)
    requires LateAt(late, k)
    ensures |tries| == |late| && AllListOnce(tries) && LosesOnly(tries, {})
    ensures !Once(AllReceived(tries, late)) && !Once(AllSucceeded(tries, late))
  {
    tries := OneChannelTries(|late|, 0, k, [Good]);
    ScriptLoses(|late|, 0, k, [Good]);
    ScriptRuns(late, 0, k, [Good]);
    RefusedAndAccepted();
    ScriptedTry(|late|, 0, k, [Good], k);
    ScriptedTry(|late|, 0, k, [Good], k + 1);
    var n := Deliveries(tries, late);
    TwiceInARow(Received(tries)[..n], k, 0);
    TwiceInARow(Succeeded(tries)[..n], k, 0);
  }

  lemma TwiceInARow(bags: seq<multiset<ChannelId>>, k: nat, c: ChannelId)
    requires k + 1 < |bags| && bags[k] == Bag(c, 1) && bags[k + 1] == Bag(c, 1)
    ensures !Once(Total(bags))
  {
    TotalHas(bags, k, c);
    assert Total(bags)[c] >= 2;
  }

  lemma TwiceAtOnce(bags: seq<multiset<ChannelId>>, k: nat, c: ChannelId)
    requires k < |bags| && bags[k] == Bag(c, 2)
    ensures !Once(Total(bags))
  {
    TotalHas(bags, k, c);
    assert Total(bags)[c] >= 2;
  }

  // Bad answers, then one that is lost, then a good one.
  function LostAnswers(k: nat): (answers: seq<Reply>)
    ensures |answers| == k + 2 && answers[k].Lost? && answers[k + 1].Good?
    ensures forall j :: 0 <= j < |answers| ==> (answers[j].Lost? <==> j == k) && (answers[j].Good? ==> j == k + 1)
  {
    seq(k, _ => Bad) + [Lost, Good]
  }

  lemma LostAnswersAre(k: nat)
    requires k < SEND_TRIES
    ensures var answers := LostAnswers(k);
            if k < SEND_TRIES - 1 then LandedFrom(answers, 0) == 2
            else !SucceedsFrom(answers, 0) && LandedFrom(answers, 0) == 1
  {
    var answers := LostAnswers(k);
    assert LandedFrom(answers, 3) == 0 && !SucceedsFrom(answers, 3);
    assert k + 1 < SEND_TRIES ==> LandedFrom(answers, k + 1) == 1;
    assert LandedFrom(answers, k) == 1 + LandedFrom(answers, k + 1);
    if k >= 1 { assert LandedFrom(answers, k - 1) == LandedFrom(answers, k); }
    if k == 2 {
      assert !SucceedsFrom(answers, 2);
      assert !SucceedsFrom(answers, 1) && LandedFrom(answers, 0) == LandedFrom(answers, 1);
    }
  }

  lemma LostReceivedTwice(late: seq<bool>, t: Try)
    requires Repeated(|late|, t)
    ensures var tries := OneChannelTries(|late|, t.channel, t.delivery, LostAnswers(t.k));
            !Once(AllReceived(tries, late))
  {
    var n, c, k, answers := |late|, t.channel, t.delivery, LostAnswers(t.k);
    var bags := Received(OneChannelTries(n, c, k, answers));
    var used := Deliveries(OneChannelTries(n, c, k, answers), late);
    ScriptRuns(late, c, k, answers);
    LostAnswersAre(t.k);
    ScriptedTry(n, c, k, answers, k);
    if t.k < SEND_TRIES - 1 {
      assert bags[k] == Bag(c, 2);
      TwiceAtOnce(bags[..used], k, c);
    } else {
      RefusedAndAccepted();
      ScriptedTry(n, c, k, answers, k + 1);
      TwiceInARow(bags[..used], k, c);
    }
  }

  lemma LostTwice(late: seq<bool>, t: Try) returns (tries: seq<Attempt>)
    requires Repeated(|late|, t)
    ensures |tries| == |late| && AllListOnce(tries) && LosesOnly(tries, {t})
    ensures !Once(AllReceived(tries, late))
  {
    tries := OneChannelTries(|late|, t.channel, t.delivery, LostAnswers(t.k));
    LostReceivedTwice(late, t);
    ScriptLoses(|late|, t.channel, t.delivery, LostAnswers(t.k));
    assert forall t' :: Loses(tries, t') ==> t' == t;
  }

  // ---- Exactly ----

  // Whatever else the attempts meet, with handlers late at these places and no tries but these lost.
  ghost predicate ReceivesOnce(late: seq<bool>, lost: set<Try>) {
    forall tries | |tries| == |late| && AllListOnce(tries) && LosesOnly(tries, lost) :: Once(AllReceived(tries, late))
  }

  ghost predicate SucceedsOnlyOnce(late: seq<bool>) {
    forall tries | |tries| == |late| && AllListOnce(tries) :: Once(AllSucceeded(tries, late))
  }

  /** Nobody ever receives the event twice, whatever else the channels do, exactly when no handler is late
      while another delivery can follow, and no try reports an error about an event that has arrived while
      another try can follow. */
  lemma NeverTwiceExactly(late: seq<bool>, lost: set<Try>)
    ensures ReceivesOnce(late, lost) <==> InTime(late) && LossesAreLast(|late|, lost)
  {
    if InTime(late) && LossesAreLast(|late|, lost) {
      forall tries | |tries| == |late| && AllListOnce(tries) && LosesOnly(tries, lost)
        ensures Once(AllReceived(tries, late))
      {
        NobodyReceivesTwiceUnlessLate(tries, late, lost);
      }
    } else if !InTime(late) {
      var k: nat :| LateAt(late, k);
      var tries := LateTwice(late, k);
      assert LosesOnly(tries, lost);
    } else {
      var t :| t in lost && Repeated(|late|, t);
      var tries := LostTwice(late, t);
      assert LosesOnly(tries, lost);
    }
  }

  /** The sends alone: no channel's send ever succeeds twice exactly when no handler is late while another
      delivery can follow. */
  lemma SendsOnceExactly(late: seq<bool>)
    ensures SucceedsOnlyOnce(late) <==> InTime(late)
  {
    if InTime(late) {
      forall tries | |tries| == |late| && AllListOnce(tries) ensures Once(AllSucceeded(tries, late)) {
        NoChannelTwiceUnlessLate(tries, late);
      }
    } else {
      var k: nat :| LateAt(late, k);
      var tries := LateTwice(late, k);
    }
  }
}
