/** The founder-seat cap: the transaction of `TagFromWebhook`, the LemonSqueezy webhook that
    drives it, and every interleaving of any number of such webhooks.

    Each repository call is one atomic step. `FounderCap` is the protocol as a transition system;
    `Billing` holds the services as objects, each method of which is shown to be one schedule of
    that system. */
module FounderCap {
  import opened Wrappers

  type UserId = nat
  type Tid = nat

  datatype Plan = Free | Pro
  datatype Variant = Untagged | Founder | Retail | Gift
  datatype User = User(plan: Plan, variant: Variant)
  type Users = map<UserId, User>

  predicate ActiveFounder(u: User) { u.plan.Pro? && u.variant.Founder? }

  // CountActiveFounderSubscriptions counts this set.
  function ActiveFounders(users: Users): set<UserId> {
    set u | u in users && ActiveFounder(users[u])
  }

  // The two UPDATE statements: a missing row is left alone and is no error.
  function SetPlan(users: Users, u: UserId, p: Plan): Users {
    if u in users then users[u := users[u].(plan := p)] else users
  }

  function SetVariant(users: Users, u: UserId, v: Variant): Users {
    if u in users then users[u := users[u].(variant := v)] else users
  }

  /** Where one subscription webhook stands: the repository call it makes next. */
  datatype Pc =
    | Upgrading(u: UserId, req: Variant)
    | Linking(u: UserId, req: Variant)
    | Beginning(u: UserId, req: Variant)
    | Counting(u: UserId)
    | Writing(u: UserId, chosen: Variant, locked: bool)
    | Committing(u: UserId, chosen: Variant, locked: bool)
    | Done(ok: bool)

  predicate HoldsLock(pc: Pc) {
    pc.Counting? || ((pc.Writing? || pc.Committing?) && pc.locked)
  }

  /** `unsettled` is bookkeeping that no program reads: the users moved from free to pro while
      their row still said `founder`, and not tagged by a committed transaction since. */
  datatype State = State(users: Users, unsettled: set<UserId>, threads: map<Tid, Pc>, lock: Option<Tid>)

  /** One atomic step. `ok` is whether the repository call answers without an error; a crash in
      mid-transaction is a call that answers with one. A lost call takes effect and answers with one. */
  datatype Action =
    | Receive(t: Tid, u: UserId, req: Variant)
    | Cancel(u: UserId)
    | Call(t: Tid, ok: bool)
    | LoseAnswer(t: Tid)

  function Settled(s: State): set<UserId> { ActiveFounders(s.users) - s.unsettled }

  predicate Initial(s: State) { s.unsettled == {} && s.threads == map[] && s.lock == None }

  predicate TakesEffect(a: Action) { (a.Call? && a.ok) || a.LoseAnswer? }

  predicate IsUpgrade(s: State, a: Action) {
    TakesEffect(a) && a.t in s.threads && s.threads[a.t].Upgrading?
  }

  // The guard of the step that can break the plain promise: a lapsed founder is upgraded.
  predicate RevivesSeat(s: State, a: Action) {
    IsUpgrade(s, a) &&
    var u := s.threads[a.t].u;
    u in s.users && s.users[u] == User(Free, Founder)
  }

  function Goto(s: State, t: Tid, pc: Pc): State { s.(threads := s.threads[t := pc]) }

  function Unlock(s: State, t: Tid): State {
    if s.lock == Some(t) then s.(lock := None) else s
  }

  function Upgrade(s: State, u: UserId): State {
    s.(users := SetPlan(s.users, u, Pro),
       unsettled := if u in s.users && s.users[u] == User(Free, Founder) then s.unsettled + {u} else s.unsettled)
  }

  function Tag(s: State, u: UserId, v: Variant): State {
    s.(users := SetVariant(s.users, u, v), unsettled := s.unsettled - {u})
  }

  // A step that is not possible in `s` leaves `s` unchanged.
  function Step(cap: int, s: State, a: Action): State {
    match a
    case Receive(t, u, req) =>
      if u in s.users && (t !in s.threads || s.threads[t].Done?) then Goto(s, t, Upgrading(u, req)) else s
    case Cancel(u) => s.(users := SetPlan(s.users, u, Free))
    // A lost upgrade is answered as a failed one; a lost commit has committed; no other call changes rows.
    case LoseAnswer(t) =>
      if t !in s.threads then s
      else if s.threads[t].Upgrading? then Goto(Upgrade(s, s.threads[t].u), t, Done(false))
      else if s.threads[t].Committing? then Goto(Unlock(Tag(s, s.threads[t].u, s.threads[t].chosen), t), t, Done(true))
      else s
    case Call(t, ok) =>
      if t !in s.threads then s else
        match s.threads[t]
        case Upgrading(u, req) => if ok then Goto(Upgrade(s, u), t, Linking(u, req)) else Goto(s, t, Done(false))
        case Linking(u, req) => Goto(s, t, if ok then Beginning(u, req) else Done(false))
        case Beginning(u, req) =>
          if !req.Founder? then Goto(s, t, Writing(u, req, false))
          else if !ok then Goto(s, t, Done(true))
          else if s.lock.Some? then s
          else Goto(s.(lock := Some(t)), t, Counting(u))
        case Counting(u) =>
          if !ok then Goto(Unlock(s, t), t, Done(true))
          else Goto(s, t, Writing(u, if |ActiveFounders(s.users)| >= cap then Retail else Founder, true))
        case Writing(u, chosen, locked) =>
          if ok then Goto(s, t, Committing(u, chosen, locked)) else Goto(Unlock(s, t), t, Done(true))
        case Committing(u, chosen, locked) =>
          Goto(Unlock(if ok then Tag(s, u, chosen) else s, t), t, Done(true))
        case Done(_) => s
  }

  function Exec(cap: int, s: State, acts: seq<Action>): State {
    if acts == [] then s
    else Step(cap, Exec(cap, s, acts[..|acts| - 1]), acts[|acts| - 1])
  }

  predicate WritesFounder(pc: Pc) { (pc.Writing? || pc.Committing?) && pc.chosen.Founder? }

  /** The advisory lock excludes a second counting transaction, and a founder tag is only ever
      written under it. */
  ghost predicate LockInv(s: State) {
    && (forall t :: t in s.threads && HoldsLock(s.threads[t]) ==> s.lock == Some(t))
    && LockIsHeld(s)
    && (forall t :: t in s.threads && WritesFounder(s.threads[t]) ==> s.threads[t].locked)
  }

  predicate LockIsHeld(s: State) {
    s.lock.Some? ==> s.lock.value in s.threads && HoldsLock(s.threads[s.lock.value])
  }

  /** Room counted under the lock is still there when the tag commits. */
  ghost predicate RoomInv(cap: int, s: State) {
    && |Settled(s)| <= cap
    && (forall t :: t in s.threads && WritesFounder(s.threads[t]) ==> |Settled(s)| < cap)
  }

  ghost predicate Inv(cap: int, s: State) { LockInv(s) && RoomInv(cap, s) }

  predicate CommitsFounder(s: State, a: Action) {
    TakesEffect(a) && a.t in s.threads && s.threads[a.t].Committing? && s.threads[a.t].chosen.Founder?
  }

  lemma OnlyCommitsSettle(cap: int, s: State, a: Action)
    requires !CommitsFounder(s, a)
    ensures Settled(Step(cap, s, a)) <= Settled(s)
  {
    if IsUpgrade(s, a) {
      var u := s.threads[a.t].u;
      assert Step(cap, s, a).users == SetPlan(s.users, u, Pro);
    }
  }

  lemma StepKeepsLockHeld(cap: int, s: State, a: Action)
    requires LockIsHeld(s)
    ensures LockIsHeld(Step(cap, s, a))
  {
  }

  lemma StepKeepsLockInv(cap: int, s: State, a: Action)
    requires LockInv(s)
    ensures LockInv(Step(cap, s, a))
  {
    StepKeepsLockHeld(cap, s, a);
  }

  lemma StepKeepsInv(cap: int, s: State, a: Action)
    requires Inv(cap, s)
    ensures Inv(cap, Step(cap, s, a))
  {
    StepKeepsLockInv(cap, s, a);
    if CommitsFounder(s, a) {
      CommitKeepsInv(cap, s, a);
    } else {
      OnlyCommitsSettle(cap, s, a);
      SubsetSize(Settled(Step(cap, s, a)), Settled(s));
      SubsetSize(Settled(s), ActiveFounders(s.users));
      NewWritersCountedRoom(cap, s, a);
    }
  }

  // A thread that writes a founder tag after the step either did before it, or has just counted.
  lemma NewWritersCountedRoom(cap: int, s: State, a: Action)
    ensures var s' := Step(cap, s, a);
            forall t :: t in s'.threads && WritesFounder(s'.threads[t]) ==>
              (t in s.threads && WritesFounder(s.threads[t])) || |ActiveFounders(s.users)| < cap
  {
  }

  lemma CommitKeepsInv(cap: int, s: State, a: Action)
    requires Inv(cap, s) && CommitsFounder(s, a)
    ensures Inv(cap, Step(cap, s, a))
  {
    var s' := Step(cap, s, a);
    var u := s.threads[a.t].u;
    StepKeepsLockInv(cap, s, a);
    assert Settled(s') <= Settled(s) + {u};
    SubsetSize(Settled(s'), Settled(s) + {u});
    UnionSize(Settled(s), {u});
  }

  lemma {:induction false} ExecKeepsInv(cap: int, s: State, acts: seq<Action>)
    requires Inv(cap, s)
    ensures Inv(cap, Exec(cap, s, acts))
  {
    if acts != [] {
      ExecKeepsInv(cap, s, acts[..|acts| - 1]);
      StepKeepsInv(cap, Exec(cap, s, acts[..|acts| - 1]), acts[|acts| - 1]);
    }
  }

  /** In every interleaving, founders without a pending tag never exceed the cap, and the number
      the pricing page counts exceeds it by no more than the lapsed founders not yet re-tagged. */
  lemma CapHoldsForSettledFounders(cap: int, s: State, acts: seq<Action>)
    requires Initial(s) && |ActiveFounders(s.users)| <= cap
    ensures var s' := Exec(cap, s, acts);
            |Settled(s')| <= cap && |ActiveFounders(s'.users)| <= cap + |s'.unsettled|
  {
    assert Settled(s) == ActiveFounders(s.users);
    ExecKeepsInv(cap, s, acts);
    var s' := Exec(cap, s, acts);
    assert ActiveFounders(s'.users) <= Settled(s') + s'.unsettled;
    SubsetSize(ActiveFounders(s'.users), Settled(s') + s'.unsettled);
    UnionSize(Settled(s'), s'.unsettled);
  }

  /** Whoever is unsettled was revived by an upgrade of this very run. */
  ghost predicate NeverRevives(cap: int, s: State, acts: seq<Action>) {
    forall i :: 0 <= i < |acts| ==> !RevivesSeat(Exec(cap, s, acts[..i]), acts[i])
  }

  lemma OnlyRevivalsUnsettle(cap: int, s: State, a: Action)
    requires !RevivesSeat(s, a)
    ensures Step(cap, s, a).unsettled <= s.unsettled
  {
  }

  lemma {:induction false} NoRevivalNothingUnsettled(cap: int, s: State, acts: seq<Action>)
    requires s.unsettled == {} && NeverRevives(cap, s, acts)
    ensures Exec(cap, s, acts).unsettled == {}
  {
    if acts != [] {
      var init := acts[..|acts| - 1];
      assert forall i :: 0 <= i < |init| ==> init[..i] == acts[..i] && init[i] == acts[i];
      NoRevivalNothingUnsettled(cap, s, init);
      OnlyRevivalsUnsettle(cap, Exec(cap, s, init), acts[|acts| - 1]);
    }
  }

  /** The plain promise, on every run in which no lapsed founder is upgraded. */
  lemma CapHoldsWithoutRevival(cap: int, s: State, acts: seq<Action>)
    requires Initial(s) && |ActiveFounders(s.users)| <= cap
    requires NeverRevives(cap, s, acts)
    ensures |ActiveFounders(Exec(cap, s, acts).users)| <= cap
  {
    CapHoldsForSettledFounders(cap, s, acts);
    NoRevivalNothingUnsettled(cap, s, acts);
  }

  ghost predicate EveryFounderIsPro(s: State) {
    && (forall u :: u in s.users && s.users[u].variant.Founder? ==> s.users[u].plan.Pro?)
    && (forall t :: t in s.threads && Upgraded(s.threads[t]) && s.threads[t].u in s.users ==>
          s.users[s.threads[t].u].plan.Pro?)
  }

  predicate Upgraded(pc: Pc) { !pc.Upgrading? && !pc.Done? }

  lemma StepKeepsFoundersPro(cap: int, s: State, a: Action)
    requires EveryFounderIsPro(s) && !a.Cancel?
    ensures EveryFounderIsPro(Step(cap, s, a))
  {
  }

  lemma {:induction false} NoCancellationNoRevival(cap: int, s: State, acts: seq<Action>)
    requires EveryFounderIsPro(s)
    requires forall i :: 0 <= i < |acts| ==> !acts[i].Cancel?
    ensures EveryFounderIsPro(Exec(cap, s, acts)) && NeverRevives(cap, s, acts)
  {
    if acts != [] {
      var init := acts[..|acts| - 1];
      NoCancellationNoRevival(cap, s, init);
      StepKeepsFoundersPro(cap, Exec(cap, s, init), acts[|acts| - 1]);
      forall i | 0 <= i < |acts| ensures !RevivesSeat(Exec(cap, s, acts[..i]), acts[i]) {
        if i < |init| {
          assert init[..i] == acts[..i];
          assert !RevivesSeat(Exec(cap, s, init[..i]), init[i]);
        }
      }
    }
  }

  /** The plain promise, on every run without cancellations. */
  lemma CapHoldsWithoutCancellations(cap: int, s: State, acts: seq<Action>)
    requires Initial(s) && |ActiveFounders(s.users)| <= cap
    requires forall u :: u in s.users && s.users[u].variant.Founder? ==> s.users[u].plan.Pro?
    requires forall i :: 0 <= i < |acts| ==> !acts[i].Cancel?
    ensures |ActiveFounders(Exec(cap, s, acts).users)| <= cap
  {
    NoCancellationNoRevival(cap, s, acts);
    CapHoldsWithoutRevival(cap, s, acts);
  }

  /** `UpgradeToPro` breaks the plain promise exactly when it revives a lapsed founder's seat and
      no seat is free. */
  lemma UpgradeBreaksCapExactly(cap: int, s: State, a: Action)
    requires |ActiveFounders(s.users)| <= cap && IsUpgrade(s, a)
    ensures |ActiveFounders(Step(cap, s, a).users)| > cap
            <==> RevivesSeat(s, a) && |ActiveFounders(s.users)| == cap
  {
    var u := s.threads[a.t].u;
    var before, after := ActiveFounders(s.users), ActiveFounders(Step(cap, s, a).users);
    if RevivesSeat(s, a) {
      assert after == before + {u};
    } else {
      assert after == before;
    }
  }

  // The guard of the other step that can: a user on the pro plan who is no founder is tagged as one.
  predicate SeatsAnother(s: State, a: Action) {
    CommitsFounder(s, a) &&
    var u := s.threads[a.t].u;
    u in s.users && s.users[u].plan.Pro? && !s.users[u].variant.Founder?
  }

  predicate BreaksCap(cap: int, s: State, a: Action) {
    (RevivesSeat(s, a) || SeatsAnother(s, a)) && |ActiveFounders(s.users)| == cap
  }

  /** A step breaks the plain promise exactly when it takes a seat and none is free. */
  lemma StepBreaksCapExactly(cap: int, s: State, a: Action)
    requires |ActiveFounders(s.users)| <= cap
    ensures |ActiveFounders(Step(cap, s, a).users)| > cap <==> BreaksCap(cap, s, a)
  {
    if RevivesSeat(s, a) {
      UpgradeBreaksCapExactly(cap, s, a);
    } else if SeatsAnother(s, a) {
      CommitTakesSeat(cap, s, a);
    } else {
      OtherStepsTakeNoSeat(cap, s, a);
      SubsetSize(ActiveFounders(Step(cap, s, a).users), ActiveFounders(s.users));
    }
  }

  predicate WithinCapAt(cap: int, s: State, acts: seq<Action>, n: nat)
    requires n <= |acts|
  {
    |ActiveFounders(Exec(cap, s, acts[..n]).users)| <= cap
  }

  predicate BreaksCapAt(cap: int, s: State, acts: seq<Action>, n: nat)
    requires n < |acts|
  {
    BreaksCap(cap, Exec(cap, s, acts[..n]), acts[n])
  }

  ghost predicate KeptThroughout(cap: int, s: State, acts: seq<Action>) {
    forall n :: 0 <= n <= |acts| ==> WithinCapAt(cap, s, acts, n)
  }

  ghost predicate NoneBreaks(cap: int, s: State, acts: seq<Action>) {
    forall n :: 0 <= n < |acts| ==> !BreaksCapAt(cap, s, acts, n)
  }

  lemma ExecNext(cap: int, s: State, acts: seq<Action>, n: nat)
    requires n < |acts|
    ensures Exec(cap, s, acts[..n + 1]) == Step(cap, Exec(cap, s, acts[..n]), acts[n])
  {
    assert acts[..n + 1][..n] == acts[..n];
  }

  /** The plain promise is kept all through a run exactly when no step of it takes a seat while none is free. */
  lemma {:induction false} CapKeptExactly(cap: int, s: State, acts: seq<Action>)
    requires |ActiveFounders(s.users)| <= cap
    ensures KeptThroughout(cap, s, acts) <==> NoneBreaks(cap, s, acts)
  {
    if NoneBreaks(cap, s, acts) {
      forall n | 0 <= n <= |acts| ensures WithinCapAt(cap, s, acts, n) { NoneBreaksKeeps(cap, s, acts, n); }
    }
    if KeptThroughout(cap, s, acts) {
      forall n | 0 <= n < |acts| ensures !BreaksCapAt(cap, s, acts, n) {
        assert WithinCapAt(cap, s, acts, n) && WithinCapAt(cap, s, acts, n + 1);
        WithinCapNext(cap, s, acts, n);
      }
    }
  }

  ghost predicate AlwaysWithinCap(cap: int, s: State) {
    forall acts :: |ActiveFounders(Exec(cap, s, acts).users)| <= cap
  }

  predicate NoFounderTag(s: State) { forall u :: u in s.users ==> !s.users[u].variant.Founder? }

  ghost predicate NothingGranted(s: State) {
    NoFounderTag(s) && forall t :: t in s.threads ==> !WritesFounder(s.threads[t])
  }

  /** The plain promise is safe on every run exactly when nothing can challenge it: there are no more
      accounts than seats, or there are no seats and nobody carries the tag. */
  lemma PlainPromiseExactly(cap: int, s: State)
    requires Initial(s) && |ActiveFounders(s.users)| <= cap
    ensures AlwaysWithinCap(cap, s) <==> |s.users| <= cap || (cap == 0 && NoFounderTag(s))
  {
    if |s.users| <= cap {
      forall acts ensures |ActiveFounders(Exec(cap, s, acts).users)| <= cap {
        UsersFixed(cap, s, acts);
        SubsetSize(ActiveFounders(Exec(cap, s, acts).users), s.users.Keys);
      }
    } else if cap == 0 && NoFounderTag(s) {
      forall acts ensures |ActiveFounders(Exec(cap, s, acts).users)| <= cap {
        ZeroCapGrantsNothing(s, acts);
        assert ActiveFounders(Exec(cap, s, acts).users) == {};
      }
    } else {
      PlainPromiseCanBreak(cap, s);
    }
  }

  // Someone but the user of webhook `t` has been revived and not re-tagged.
  predicate OtherUnsettled(s: State, t: Tid)
    requires t in s.threads && s.threads[t].Committing?
  {
    exists v :: v in s.unsettled && v in ActiveFounders(s.users) && v != s.threads[t].u
  }

  /** A commit only breaks it while another lapsed founder has been upgraded and not yet re-tagged. */
  lemma CommitBreaksAfterRevival(cap: int, s: State, acts: seq<Action>, a: Action)
    requires Initial(s) && |ActiveFounders(s.users)| <= cap
    requires SeatsAnother(Exec(cap, s, acts), a) && BreaksCap(cap, Exec(cap, s, acts), a)
    ensures OtherUnsettled(Exec(cap, s, acts), a.t)
  {
    assert Settled(s) == ActiveFounders(s.users);
    ExecKeepsInv(cap, s, acts);
    NoRoomMeansUnsettled(cap, Exec(cap, s, acts), a);
  }

  // By a run that keeps the cap all through.
  ghost predicate ReachesWithin(cap: int, s: State, s': State) {
    exists acts :: Exec(cap, s, acts) == s' && KeptThroughout(cap, s, acts)
  }

  // The state before the commit, and the commit.
  ghost predicate CommitBreaks(cap: int, s: State, s': State) {
    && ReachesWithin(cap, s, s') && SeatsAnother(s', Call(0, true))
    && |ActiveFounders(Step(cap, s', Call(0, true)).users)| > cap
  }

  /** With one seat free, an untagged user who buys it while a lapsed founder renews can break the plain
      promise at the commit: the room that its transaction has counted under the lock is gone by then. */
  lemma CommitCanBreakCap(cap: int, s: State, u: UserId, v: UserId)
    requires Initial(s) && |ActiveFounders(s.users)| == cap - 1
    requires u in s.users && s.users[u] == User(Free, Untagged)
    requires v in s.users && s.users[v] == User(Free, Founder)
    ensures exists s' :: CommitBreaks(cap, s, s')
  {
    var pro := s.users[u := User(Pro, Untagged)];
    assert ActiveFounders(pro) == ActiveFounders(s.users);
    UpToTheLink(cap, s, u);
    UpToTheCommit(cap, s, pro, u);
    RenewMeanwhile(cap, s, pro, u, v);
    var both := pro[v := User(Pro, Founder)];
    assert ActiveFounders(both) == ActiveFounders(pro) + {v};
    var s' :| ReachesWithin(cap, s, s') && AboutToCommit(s', both, u);
    StepBreaksCapExactly(cap, s', Call(0, true));
    assert CommitBreaks(cap, s, s');
  }

  // ---- What these rest on ----

  // A step that changes neither the plan nor the tag of anyone to theirs takes no seat.
  lemma OtherStepsTakeNoSeat(cap: int, s: State, a: Action)
    requires !RevivesSeat(s, a) && !SeatsAnother(s, a)
    ensures ActiveFounders(Step(cap, s, a).users) <= ActiveFounders(s.users)
  {
    if CommitsFounder(s, a) {
      var u := s.threads[a.t].u;
      assert Step(cap, s, a).users == SetVariant(s.users, u, Founder);
    } else if IsUpgrade(s, a) {
      var u := s.threads[a.t].u;
      assert Step(cap, s, a).users == SetPlan(s.users, u, Pro);
    }
  }

  lemma CommitTakesSeat(cap: int, s: State, a: Action)
    requires SeatsAnother(s, a)
    ensures |ActiveFounders(Step(cap, s, a).users)| == |ActiveFounders(s.users)| + 1
  {
    var u := s.threads[a.t].u;
    assert Step(cap, s, a).users == s.users[u := User(Pro, Founder)];
    assert ActiveFounders(Step(cap, s, a).users) == ActiveFounders(s.users) + {u};
  }

  lemma WithinCapNext(cap: int, s: State, acts: seq<Action>, n: nat)
    requires n < |acts| && WithinCapAt(cap, s, acts, n)
    ensures WithinCapAt(cap, s, acts, n + 1) <==> !BreaksCapAt(cap, s, acts, n)
  {
    ExecNext(cap, s, acts, n);
    StepBreaksCapExactly(cap, Exec(cap, s, acts[..n]), acts[n]);
  }

  lemma {:induction false} NoneBreaksKeeps(cap: int, s: State, acts: seq<Action>, n: nat)
    requires n <= |acts| && |ActiveFounders(s.users)| <= cap && NoneBreaks(cap, s, acts)
    ensures WithinCapAt(cap, s, acts, n)
  {
    if n == 0 {
      assert acts[..0] == [];
    } else {
      NoneBreaksKeeps(cap, s, acts, n - 1);
      WithinCapNext(cap, s, acts, n - 1);
    }
  }

  lemma NoRoomMeansUnsettled(cap: int, s: State, a: Action)
    requires Inv(cap, s) && SeatsAnother(s, a) && |ActiveFounders(s.users)| == cap
    ensures OtherUnsettled(s, a.t)
  {
    assert WritesFounder(s.threads[a.t]) && |Settled(s)| < cap;
    assert ActiveFounders(s.users) * s.unsettled == {} ==> Settled(s) == ActiveFounders(s.users);
    var v :| v in ActiveFounders(s.users) * s.unsettled;
    assert v in s.users && s.users[v].variant.Founder? && v != s.threads[a.t].u;
  }

  lemma StepGrantsNothing(s: State, a: Action)
    requires NothingGranted(s)
    ensures NothingGranted(Step(0, s, a))
  {
  }

  lemma {:induction false} ZeroCapGrantsNothing(s: State, acts: seq<Action>)
    requires Initial(s) && NoFounderTag(s)
    ensures NothingGranted(Exec(0, s, acts))
  {
    if acts != [] {
      ZeroCapGrantsNothing(s, acts[..|acts| - 1]);
      StepGrantsNothing(Exec(0, s, acts[..|acts| - 1]), acts[|acts| - 1]);
    }
  }

  lemma {:induction false} UsersFixed(cap: int, s: State, acts: seq<Action>)
    ensures Exec(cap, s, acts).users.Keys == s.users.Keys
  {
    if acts != [] { UsersFixed(cap, s, acts[..|acts| - 1]); }
  }

  // ---- The run that breaks it at a commit: a founder revived between the count and the commit ----

  lemma ReachesWithinSelf(cap: int, s: State)
    requires |ActiveFounders(s.users)| <= cap
    ensures ReachesWithin(cap, s, s)
  {
    var none: seq<Action> := [];
    assert none[..0] == none && Exec(cap, s, none) == s && KeptThroughout(cap, s, none);
  }

  lemma KeptOneMore(cap: int, s: State, acts: seq<Action>, a: Action)
    requires KeptThroughout(cap, s, acts)
    requires |ActiveFounders(Step(cap, Exec(cap, s, acts), a).users)| <= cap
    ensures Exec(cap, s, acts + [a]) == Step(cap, Exec(cap, s, acts), a) && KeptThroughout(cap, s, acts + [a])
  {
    var more := acts + [a];
    assert more[..|acts|] == acts && more[..|acts| + 1] == more;
    ExecNext(cap, s, more, |acts|);
    forall n | 0 <= n <= |more| ensures WithinCapAt(cap, s, more, n) {
      if n <= |acts| {
        assert more[..n] == acts[..n];
        assert WithinCapAt(cap, s, acts, n);
      } else {
        assert n == |more|;
      }
    }
  }

  lemma ReachesWithinStep(cap: int, s: State, s': State, a: Action)
    requires ReachesWithin(cap, s, s') && |ActiveFounders(Step(cap, s', a).users)| <= cap
    ensures ReachesWithin(cap, s, Step(cap, s', a))
  {
    var acts :| Exec(cap, s, acts) == s' && KeptThroughout(cap, s, acts);
    KeptOneMore(cap, s, acts, a);
  }

  // Such a run leads to a state with these rows, in which webhook 0 stands at `pc`.
  ghost predicate StandsAt(cap: int, s: State, users: Users, pc: Pc) {
    exists s' :: ReachesWithin(cap, s, s') && Alone(s', users, pc)
  }

  // Webhook 0 is the only one, and stands at `pc`; the lock is free unless held by it.
  ghost predicate Alone(s: State, rows: Users, pc: Pc) {
    s == State(rows, s.unsettled, map[0 := pc], if HoldsLock(pc) then Some(0) else None)
  }

  // What the next call of a webhook does when no other one runs.
  function NextAlone(cap: int, rows: Users, pc: Pc, ok: bool): (Users, Pc) {
    match pc
    case Upgrading(u, req) => if ok then (SetPlan(rows, u, Pro), Linking(u, req)) else (rows, Done(false))
    case Linking(u, req) => (rows, if ok then Beginning(u, req) else Done(false))
    case Beginning(u, req) =>
      (rows, if !req.Founder? then Writing(u, req, false) else if ok then Counting(u) else Done(true))
    case Counting(u) =>
      (rows, if ok then Writing(u, if |ActiveFounders(rows)| >= cap then Retail else Founder, true) else Done(true))
    case Writing(u, v, locked) => (rows, if ok then Committing(u, v, locked) else Done(true))
    case Committing(u, v, locked) => (if ok then SetVariant(rows, u, v) else rows, Done(true))
    case Done(_) => (rows, pc)
  }

  lemma StepAlone(cap: int, s: State, rows: Users, pc: Pc, ok: bool)
    requires Alone(s, rows, pc)
    ensures var (rows', pc') := NextAlone(cap, rows, pc, ok);
            Alone(Step(cap, s, Call(0, ok)), rows', pc')
  {
  }

  lemma NextStand(cap: int, s: State, users: Users, pc: Pc)
    requires StandsAt(cap, s, users, pc) && |ActiveFounders(NextAlone(cap, users, pc, true).0)| <= cap
    ensures var (users', pc') := NextAlone(cap, users, pc, true);
            StandsAt(cap, s, users', pc')
  {
    var s' :| ReachesWithin(cap, s, s') && Alone(s', users, pc);
    StepAlone(cap, s', users, pc, true);
    ReachesWithinStep(cap, s, s', Call(0, true));
  }

  // Webhook 0 upgrades the untagged `u`.
  lemma UpToTheLink(cap: int, s: State, u: UserId)
    requires Initial(s) && |ActiveFounders(s.users)| <= cap
    requires u in s.users && s.users[u] == User(Free, Untagged)
    ensures StandsAt(cap, s, s.users[u := User(Pro, Untagged)], Linking(u, Founder))
  {
    var pro := s.users[u := User(Pro, Untagged)];
    ReachesWithinSelf(cap, s);
    ReachesWithinStep(cap, s, s, Receive(0, u, Founder));
    assert Alone(Step(cap, s, Receive(0, u, Founder)), s.users, Upgrading(u, Founder));
    assert ActiveFounders(pro) == ActiveFounders(s.users);
    NextStand(cap, s, s.users, Upgrading(u, Founder));
  }

  // With a seat free it then counts, and gets as far as the commit.
  lemma UpToTheCommit(cap: int, s: State, users: Users, u: UserId)
    requires StandsAt(cap, s, users, Linking(u, Founder)) && |ActiveFounders(users)| < cap
    ensures StandsAt(cap, s, users, Committing(u, Founder, true))
  {
    NextStand(cap, s, users, Linking(u, Founder));
    NextStand(cap, s, users, Beginning(u, Founder));
    NextStand(cap, s, users, Counting(u));
    NextStand(cap, s, users, Writing(u, Founder, true));
  }

  // Meanwhile webhook 1 upgrades a lapsed founder, who takes the last seat.
  lemma RenewMeanwhile(cap: int, s: State, users: Users, u: UserId, v: UserId)
    requires StandsAt(cap, s, users, Committing(u, Founder, true)) && |ActiveFounders(users)| == cap - 1
    requires v in users && users[v] == User(Free, Founder)
    ensures exists s' :: ReachesWithin(cap, s, s') && AboutToCommit(s', users[v := User(Pro, Founder)], u)
  {
    var s' :| ReachesWithin(cap, s, s') && Alone(s', users, Committing(u, Founder, true));
    ReachesWithinStep(cap, s, s', Receive(1, v, Founder));
    var s1 := Step(cap, s', Receive(1, v, Founder));
    var s2 := Step(cap, s1, Call(1, true));
    var pro := users[v := User(Pro, Founder)];
    assert ActiveFounders(pro) == ActiveFounders(users) + {v};
    assert AboutToCommit(s2, pro, u);
    ReachesWithinStep(cap, s, s1, Call(1, true));
  }

  predicate AboutToCommit(s: State, users: Users, u: UserId) {
    s.users == users && 0 in s.threads && s.threads[0] == Committing(u, Founder, true)
  }

  // ---- The runs that get everyone a seat ----

  ghost predicate Reaches(cap: int, s: State, s': State) {
    exists acts :: Exec(cap, s, acts) == s'
  }

  lemma ReachesSelf(cap: int, s: State)
    ensures Reaches(cap, s, s)
  {
    assert Exec(cap, s, []) == s;
  }

  lemma ReachesStep(cap: int, s: State, s': State, a: Action)
    requires Reaches(cap, s, s')
    ensures Reaches(cap, s, Step(cap, s', a))
  {
    var acts :| Exec(cap, s, acts) == s';
    assert (acts + [a])[..|acts|] == acts;
    assert Exec(cap, s, acts + [a]) == Step(cap, s', a);
  }

  // No transaction is open; webhook 0 may start.
  predicate Quiet(s: State) {
    s.lock == None && s.threads.Keys <= {0} && (0 in s.threads ==> s.threads[0].Done?)
  }

  predicate AllFree(users: Users) { forall u :: u in users ==> users[u].plan.Free? }

  // A run leads to these rows, with no transaction open.
  ghost predicate Gets(cap: int, s0: State, users: Users) {
    exists s :: Reaches(cap, s0, s) && Quiet(s) && s.users == users
  }

  lemma UpgradeOne(cap: int, s0: State, users: Users, u: UserId)
    requires Gets(cap, s0, users) && u in users
    ensures Gets(cap, s0, users[u := users[u].(plan := Pro)])
  {
    var s :| Reaches(cap, s0, s) && Quiet(s) && s.users == users;
    var s1 := Step(cap, s, Receive(0, u, Retail));
    ReachesStep(cap, s0, s, Receive(0, u, Retail));
    var s2 := Step(cap, s1, Call(0, true));
    ReachesStep(cap, s0, s1, Call(0, true));
    var s3 := Step(cap, s2, Call(0, false));
    ReachesStep(cap, s0, s2, Call(0, false));
    assert Quiet(s3) && s3.users == users[u := users[u].(plan := Pro)];
  }

  lemma CancelOne(cap: int, s0: State, users: Users, u: UserId)
    requires Gets(cap, s0, users) && u in users
    ensures Gets(cap, s0, users[u := users[u].(plan := Free)])
  {
    var s :| Reaches(cap, s0, s) && Quiet(s) && s.users == users;
    ReachesStep(cap, s0, s, Cancel(u));
    assert Quiet(Step(cap, s, Cancel(u)));
  }

  // With everyone else on the free plan, a founder purchase by `u` is granted; `u` then cancels.
  lemma GrantAndLapse(cap: int, s0: State, users: Users, u: UserId)
    requires Gets(cap, s0, users) && u in users && AllFree(users) && cap >= 1
    ensures Gets(cap, s0, users[u := User(Free, Founder)])
  {
    if users[u].variant.Founder? {
      assert users[u := User(Free, Founder)] == users;
    } else {
      var s :| Reaches(cap, s0, s) && Quiet(s) && s.users == users;
      var s' := Step(cap, s, Receive(0, u, Founder));
      ReachesStep(cap, s0, s, Receive(0, u, Founder));
      var pro := users[u := users[u].(plan := Pro)];
      for i := 0 to 4
        invariant Reaches(cap, s0, s') && s'.threads.Keys == {0}
        invariant s'.users == if i == 0 then users else pro
        invariant i < 3 ==> s'.lock == None
        invariant i == 0 ==> s'.threads[0] == Upgrading(u, Founder)
        invariant i == 1 ==> s'.threads[0] == Linking(u, Founder)
        invariant i == 2 ==> s'.threads[0] == Beginning(u, Founder)
        invariant i == 3 ==> s'.threads[0] == Counting(u) && s'.lock == Some(0)
        invariant i == 4 ==> s'.threads[0] == Writing(u, Founder, true) && s'.lock == Some(0)
      {
        assert i == 3 ==> ActiveFounders(s'.users) == {};
        ReachesStep(cap, s0, s', Call(0, true));
        s' := Step(cap, s', Call(0, true));
      }
      GrantedLapses(cap, s0, s', pro, u);
      assert pro[u := User(Free, Founder)] == users[u := User(Free, Founder)];
    }
  }

  lemma GrantedLapses(cap: int, s0: State, s: State, users: Users, u: UserId)
    requires Reaches(cap, s0, s) && s.users == users && u in users && users[u].plan.Pro?
    requires s.threads.Keys == {0} && s.threads[0] == Writing(u, Founder, true) && s.lock == Some(0)
    ensures Gets(cap, s0, users[u := User(Free, Founder)])
  {
    var s1 := Step(cap, s, Call(0, true));
    ReachesStep(cap, s0, s, Call(0, true));
    var s2 := Step(cap, s1, Call(0, true));
    ReachesStep(cap, s0, s1, Call(0, true));
    var tagged := users[u := User(Pro, Founder)];
    assert Quiet(s2) && s2.users == tagged;
    CancelOne(cap, s0, tagged, u);
    assert tagged[u := User(Free, Founder)] == users[u := User(Free, Founder)];
  }

  predicate AllTagged(users: Users) { forall u :: u in users ==> users[u].variant.Founder? }

  // Where one of the three journeys leads that is made by every user in turn.
  ghost predicate CanAllLapse(cap: int, s0: State, ids: set<UserId>) {
    exists users :: Gets(cap, s0, users) && users.Keys == ids && AllFree(users)
  }

  ghost predicate CanAllBeTagged(cap: int, s0: State, ids: set<UserId>) {
    exists users :: Gets(cap, s0, users) && users.Keys == ids && AllTagged(users)
  }

  ghost predicate CanAllBeActive(cap: int, s0: State, ids: set<UserId>) {
    exists users :: Gets(cap, s0, users) && ActiveFounders(users) == ids
  }

  lemma {:induction false} CancelAll(cap: int, s0: State, users: Users, todo: set<UserId>)
    requires Gets(cap, s0, users) && todo <= users.Keys
    requires forall u :: u in users && u !in todo ==> users[u].plan.Free?
    ensures CanAllLapse(cap, s0, users.Keys)
    decreases |todo|
  {
    if todo == {} {
      assert AllFree(users);
    } else {
      var u :| u in todo;
      var users' := users[u := users[u].(plan := Free)];
      CancelOne(cap, s0, users, u);
      CancelAll(cap, s0, users', todo - {u});
      assert users'.Keys == users.Keys;
    }
  }

  lemma {:induction false} GrantAll(cap: int, s0: State, users: Users, todo: set<UserId>)
    requires Gets(cap, s0, users) && todo <= users.Keys && AllFree(users) && cap >= 1
    requires forall u :: u in users && u !in todo ==> users[u].variant.Founder?
    ensures CanAllBeTagged(cap, s0, users.Keys)
    decreases |todo|
  {
    if todo == {} {
      assert AllTagged(users);
    } else {
      var u :| u in todo;
      var users' := users[u := User(Free, Founder)];
      GrantAndLapse(cap, s0, users, u);
      GrantAll(cap, s0, users', todo - {u});
      assert users'.Keys == users.Keys;
    }
  }

  lemma {:induction false} UpgradeAll(cap: int, s0: State, users: Users, todo: set<UserId>)
    requires Gets(cap, s0, users) && todo <= users.Keys && AllTagged(users)
    requires forall u :: u in users && u !in todo ==> users[u].plan.Pro?
    ensures CanAllBeActive(cap, s0, users.Keys)
    decreases |todo|
  {
    if todo == {} {
      assert ActiveFounders(users) == users.Keys;
    } else {
      var u :| u in todo;
      var users' := users[u := users[u].(plan := Pro)];
      UpgradeOne(cap, s0, users, u);
      UpgradeAll(cap, s0, users', todo - {u});
      assert users'.Keys == users.Keys;
    }
  }

  // With a seat to give, everyone can be granted one in turn, and upgrade later.
  lemma EveryoneCanBeActive(cap: int, s: State)
    requires Gets(cap, s, s.users) && cap >= 1
    ensures CanAllBeActive(cap, s, s.users.Keys)
  {
    CancelAll(cap, s, s.users, s.users.Keys);
    var free :| Gets(cap, s, free) && free.Keys == s.users.Keys && AllFree(free);
    GrantAll(cap, s, free, free.Keys);
    var tagged :| Gets(cap, s, tagged) && tagged.Keys == s.users.Keys && AllTagged(tagged);
    UpgradeAll(cap, s, tagged, tagged.Keys);
  }

  lemma TooManyActive(cap: int, s: State, users: Users)
    requires Gets(cap, s, users) && |ActiveFounders(users)| > cap
    ensures !AlwaysWithinCap(cap, s)
  {
    var s' :| Reaches(cap, s, s') && Quiet(s') && s'.users == users;
    var acts :| Exec(cap, s, acts) == s';
  }

  lemma PlainPromiseCanBreak(cap: int, s: State)
    requires Initial(s) && |s.users| > cap >= 0 && (cap == 0 ==> !NoFounderTag(s))
    ensures !AlwaysWithinCap(cap, s)
  {
    ReachesSelf(cap, s);
    assert Quiet(s) && Gets(cap, s, s.users);
    if cap == 0 {
      var u :| u in s.users && s.users[u].variant.Founder?;
      var users := s.users[u := s.users[u].(plan := Pro)];
      UpgradeOne(cap, s, s.users, u);
      assert u in ActiveFounders(users);
      TooManyActive(cap, s, users);
    } else {
      EveryoneCanBeActive(cap, s);
      var users :| Gets(cap, s, users) && ActiveFounders(users) == s.users.Keys;
      TooManyActive(cap, s, users);
    }
  }
}
