/** The billing services as objects. Every method runs alone here; the schedule it returns shows
    that what it did is one run of the protocol of `FounderCap`, which is where such runs are
    interleaved with others. */
module Billing {
  import opened Wrappers
  import opened FounderCap

  datatype Response = Ok200 | InternalError500

  /** What the repository answers to the calls of one transaction: false is an error. */
  datatype TxIo = TxIo(lock: bool, count: bool, write: bool, commit: bool)

  class UserRepo {
    var rows: Users

    constructor (rows: Users)
      ensures this.rows == rows
    {
      this.rows := rows;
    }

    method UpdatePlan(u: UserId, p: Plan, ok: bool)
      modifies this
      ensures rows == if ok then SetPlan(old(rows), u, p) else old(rows)
      ensures rows.Keys == old(rows).Keys
      ensures forall v :: v in rows ==>
                rows[v] == if ok && v == u then User(p, old(rows)[v].variant) else old(rows)[v]
    {
      if ok { rows := SetPlan(rows, u, p); }
    }

    method SetSubscriptionVariant(u: UserId, v: Variant)
      modifies this
      ensures rows == SetVariant(old(rows), u, v)
      ensures rows.Keys == old(rows).Keys
      ensures forall w :: w in rows ==> rows[w] == if w == u then User(old(rows)[w].plan, v) else old(rows)[w]
    {
      rows := SetVariant(rows, u, v);
    }

    /** Row by row, the users on the pro plan with the founder tag: `counted` is a count of exactly them. */
    method CountActiveFounderSubscriptions() returns (used: nat, ghost counted: set<UserId>)
      ensures used == |counted| && counted == ActiveFounders(rows)
      ensures forall u :: u in counted <==> u in rows && rows[u].plan == Pro && rows[u].variant == Founder
    {
      used, counted := 0, {};
      var left := rows.Keys;
      while left != {}
        invariant left <= rows.Keys && used == |counted|
        invariant forall u :: u in counted <==> u in rows && u !in left && ActiveFounder(rows[u])
        decreases left
      {
        var u :| u in left;
        left := left - {u};
        if rows[u].plan == Pro && rows[u].variant == Founder { used, counted := used + 1, counted + {u}; }
      }
    }
  }

  // A store at rest, and the one webhook of it that has reached its tagging transaction.
  function Fresh(rows: Users): State { State(rows, {}, map[], None) }

  function Begun(rows: Users, unsettled: set<UserId>, u: UserId, req: Variant): State {
    State(rows, unsettled, map[0 := Beginning(u, req)], None)
  }

  ghost predicate OneWebhook(trace: seq<Action>) {
    forall i :: 0 <= i < |trace| ==> trace[i].Cancel? || trace[i].t == 0
  }

  // `trace` leads from `s` to rows `rows` with webhook 0 at `pc`; the lock is free unless held by it.
  ghost predicate At(cap: int, s: State, trace: seq<Action>, rows: Users, pc: Pc) {
    OneWebhook(trace) && Alone(Exec(cap, s, trace), rows, pc)
  }

  lemma CallAlone(cap: int, s: State, trace: seq<Action>, rows: Users, pc: Pc, ok: bool)
    requires At(cap, s, trace, rows, pc)
    ensures var (rows', pc') := NextAlone(cap, rows, pc, ok);
            At(cap, s, trace + [Call(0, ok)], rows', pc')
  {
    assert (trace + [Call(0, ok)])[..|trace|] == trace;
    StepAlone(cap, Exec(cap, s, trace), rows, pc, ok);
  }

  lemma {:induction false} ExecConcat(cap: int, s: State, before: seq<Action>, after: seq<Action>)
    ensures Exec(cap, s, before + after) == Exec(cap, Exec(cap, s, before), after)
  {
    if after == [] {
      assert before + after == before;
    } else {
      var n := |after| - 1;
      var all := before + after;
      ExecConcat(cap, s, before, after[..n]);
      assert all[..|all| - 1] == before + after[..n] && all[|all| - 1] == after[n];
    }
  }

  lemma ReceiveAlone(cap: int, rows: Users, u: UserId, req: Variant)
    requires u in rows
    ensures At(cap, Fresh(rows), [Receive(0, u, req)], rows, Upgrading(u, req))
  {
    assert [Receive(0, u, req)][..0] == [];
  }

  function Chosen(cap: int, rows: Users, req: Variant): Variant {
    if req.Founder? && |ActiveFounders(rows)| >= cap then Retail else req
  }

  predicate Commits(req: Variant, io: TxIo) { (req.Founder? ==> io.lock && io.count) && io.write && io.commit }

  function Tagged(cap: int, rows: Users, u: UserId, req: Variant, io: TxIo): Users {
    if Commits(req, io) then SetVariant(rows, u, Chosen(cap, rows, req)) else rows
  }

  // The tagging transaction as a run: the lock and the count first, then the write and the commit.
  lemma TagRun(cap: int, rows: Users, unsettled: set<UserId>, u: UserId, req: Variant, io: TxIo)
    returns (calls: seq<Action>)
    ensures At(cap, Begun(rows, unsettled, u, req), calls, Tagged(cap, rows, u, req, io), Done(true))
  {
    if !req.Founder? {
      calls := UncountedRun(cap, rows, unsettled, u, req, io);
    } else if io.lock && io.count {
      calls := CountedRun(cap, rows, unsettled, u, req, io);
    } else {
      calls := RefusedRun(cap, rows, unsettled, u, req, io);
    }
  }

  lemma UncountedRun(cap: int, rows: Users, unsettled: set<UserId>, u: UserId, req: Variant, io: TxIo)
    returns (calls: seq<Action>)
    requires !req.Founder?
    ensures At(cap, Begun(rows, unsettled, u, req), calls, Tagged(cap, rows, u, req, io), Done(true))
  {
    var s := Begun(rows, unsettled, u, req);
    BegunAlone(cap, rows, unsettled, u, req);
    CallAlone(cap, s, [], rows, Beginning(u, req), true);
    calls := WriteRun(cap, s, [] + [Call(0, true)], rows, u, req, false, io);
  }

  lemma CountedRun(cap: int, rows: Users, unsettled: set<UserId>, u: UserId, req: Variant, io: TxIo)
    returns (calls: seq<Action>)
    requires req.Founder? && io.lock && io.count
    ensures At(cap, Begun(rows, unsettled, u, req), calls, Tagged(cap, rows, u, req, io), Done(true))
  {
    var s := Begun(rows, unsettled, u, req);
    BegunAlone(cap, rows, unsettled, u, req);
    CallAlone(cap, s, [], rows, Beginning(u, req), true);
    calls := [] + [Call(0, true)];
    CallAlone(cap, s, calls, rows, Counting(u), true);
    calls := WriteRun(cap, s, calls + [Call(0, true)], rows, u, Chosen(cap, rows, req), true, io);
  }

  lemma BegunAlone(cap: int, rows: Users, unsettled: set<UserId>, u: UserId, req: Variant)
    ensures At(cap, Begun(rows, unsettled, u, req), [], rows, Beginning(u, req))
  {
  }

  // The lock cannot be had, or the count fails.
  lemma RefusedRun(cap: int, rows: Users, unsettled: set<UserId>, u: UserId, req: Variant, io: TxIo)
    returns (calls: seq<Action>)
    requires req.Founder? && !(io.lock && io.count)
    ensures At(cap, Begun(rows, unsettled, u, req), calls, rows, Done(true))
  {
    var s := Begun(rows, unsettled, u, req);
    BegunAlone(cap, rows, unsettled, u, req);
    CallAlone(cap, s, [], rows, Beginning(u, req), io.lock);
    calls := [] + [Call(0, io.lock)];
    if io.lock {
      CallAlone(cap, s, calls, rows, Counting(u), false);
      calls := calls + [Call(0, false)];
    }
  }

  lemma WriteRun(cap: int, s: State, calls: seq<Action>, rows: Users, u: UserId, v: Variant, locked: bool, io: TxIo)
    returns (calls': seq<Action>)
    requires At(cap, s, calls, rows, Writing(u, v, locked))
    ensures At(cap, s, calls', if io.write && io.commit then SetVariant(rows, u, v) else rows, Done(true))
  {
    CallAlone(cap, s, calls, rows, Writing(u, v, locked), io.write);
    calls' := calls + [Call(0, io.write)];
    if io.write {
      CallAlone(cap, s, calls', rows, Committing(u, v, locked), io.commit);
      calls' := calls' + [Call(0, io.commit)];
    }
  }

  lemma OneMoreFounder(rows: Users, u: UserId)
    ensures |ActiveFounders(SetVariant(rows, u, Founder))| <= |ActiveFounders(rows)| + 1
  {
    SubsetSize(ActiveFounders(SetVariant(rows, u, Founder)), ActiveFounders(rows) + {u});
  }

  class BillingService {
    const users: UserRepo
    const founderCap: int

    constructor (users: UserRepo, founderCap: int)
      ensures this.users == users && this.founderCap == founderCap
    {
      this.users := users;
      this.founderCap := founderCap;
    }

    /** None when the count fails. A seat is reported available exactly when a founder request counted
        now is granted, and then whoever gets it, the cap still holds. */
    method FounderStatus(countOk: bool) returns (status: Option<(bool, nat)>)
      ensures status.Some? <==> countOk
      ensures status.Some? ==> status.value.1 == |ActiveFounders(users.rows)|
      ensures status.Some? ==> (status.value.0 <==> status.value.1 < founderCap)
      ensures status.Some? ==> (status.value.0 <==> Chosen(founderCap, users.rows, Founder) == Founder)
      ensures status.Some? && status.value.0 ==>
                forall u :: |ActiveFounders(SetVariant(users.rows, u, Founder))| <= founderCap
    {
      if !countOk { return None; }
      var used, _ := users.CountActiveFounderSubscriptions();
      forall u ensures |ActiveFounders(SetVariant(users.rows, u, Founder))| <= used + 1 {
        OneMoreFounder(users.rows, u);
      }
      return Some((used < founderCap, used));
    }

    /** Tags `u`, turning a founder request into a retail one when the cap is full. `calls` is what
        the transaction did, as a run of the protocol. */
    method TagFromWebhook(u: UserId, requested: Variant, io: TxIo, ghost unsettled: set<UserId>)
      returns (chosen: Variant, ok: bool, ghost calls: seq<Action>)
      modifies users
      ensures At(founderCap, Begun(old(users.rows), unsettled, u, requested), calls, users.rows, Done(true))
      ensures ok <==> Commits(requested, io)
      ensures chosen == if io.lock && io.count then Chosen(founderCap, old(users.rows), requested) else requested
      ensures users.rows == if ok then SetVariant(old(users.rows), u, chosen) else old(users.rows)
      ensures ok <==> (requested == Founder ==> io.lock && io.count) && io.write && io.commit
      ensures ok ==>
                var used := |set v | v in old(users.rows) && old(users.rows)[v] == User(Pro, Founder)|;
                chosen == if requested == Founder && used >= founderCap then Retail else requested
      ensures users.rows.Keys == old(users.rows).Keys
      ensures forall v :: v in users.rows ==>
                users.rows[v] ==
                if ok && v == u then User(old(users.rows)[v].plan, chosen) else old(users.rows)[v]
    {
      assert (set v | v in users.rows && users.rows[v] == User(Pro, Founder)) == ActiveFounders(users.rows);
      chosen, ok := requested, false;
      calls := TagRun(founderCap, users.rows, unsettled, u, requested, io);
      if requested.Founder? {
        if !io.lock || !io.count { return; }
        var used, _ := users.CountActiveFounderSubscriptions();
        if used >= founderCap { chosen := Retail; }
      }
      if !io.write || !io.commit { return; }
      users.SetSubscriptionVariant(u, chosen);
      ok := true;
    }
  }

  /** What the repository answers to one webhook's calls before its tagging transaction. */
  datatype PlanIo = PlanIo(plan: bool, link: bool)

  // The rows an activating webhook leaves: pro as soon as the plan is written, tagged if all went well.
  function Subscribed(cap: int, rows: Users, u: UserId, founderVariant: bool, plan: PlanIo, tx: TxIo): Users {
    var upgraded := if plan.plan then SetPlan(rows, u, Pro) else rows;
    var req := if founderVariant then Founder else Retail;
    if plan.plan && plan.link then Tagged(cap, upgraded, u, req, tx) else upgraded
  }

  // Who is an active founder once `u` is on the pro plan.
  function FoundersOnceUpgraded(rows: Users, u: UserId): set<UserId> {
    set v | v in rows && rows[v].variant == Founder && (v == u || rows[v].plan == Pro)
  }

  // An activating webhook leaves its user on the pro plan as soon as the plan is written, and if all of its
  // calls go well with the tag that was bought, retail when no founder seat is left; nobody else changes.
  ghost predicate Activated(before: Users, after: Users, u: UserId, founderVariant: bool, cap: int, plan: PlanIo,
                            tx: TxIo) {
    var tags := plan.plan && plan.link && (founderVariant ==> tx.lock && tx.count) && tx.write && tx.commit;
    && after.Keys == before.Keys && (forall v :: v in after && v != u ==> after[v] == before[v])
    && (u in after ==>
          && after[u].plan == (if plan.plan then Pro else before[u].plan)
          && (!tags ==> after[u].variant == before[u].variant)
          && (tags && !founderVariant ==> after[u].variant == Retail)
          && (tags && founderVariant ==>
                after[u].variant == if |FoundersOnceUpgraded(before, u)| < cap then Founder else Retail))
  }

  lemma SubscribedIs(cap: int, rows: Users, u: UserId, founderVariant: bool, plan: PlanIo, tx: TxIo)
    requires u in rows
    ensures Activated(rows, Subscribed(cap, rows, u, founderVariant, plan, tx), u, founderVariant, cap, plan, tx)
  {
    assert ActiveFounders(SetPlan(rows, u, Pro)) == FoundersOnceUpgraded(rows, u);
  }

  class WebhookHandler {
    const billing: BillingService

    constructor (billing: BillingService)
      ensures this.billing == billing
    {
      this.billing := billing;
    }

    // The steps of an activating webhook, as a run of the protocol from `Fresh`.
    method Activate(u: UserId, founderVariant: bool, plan: PlanIo, tx: TxIo)
      returns (resp: Response, ghost trace: seq<Action>)
      requires u in billing.users.rows
      modifies billing.users
      ensures resp == if plan.plan && plan.link then Ok200 else InternalError500
      ensures At(billing.founderCap, Fresh(old(billing.users.rows)), trace, billing.users.rows, Done(resp.Ok200?))
      ensures trace != [] && trace[0] == Receive(0, u, if founderVariant then Founder else Retail)
      ensures billing.users.rows == Subscribed(billing.founderCap, old(billing.users.rows), u, founderVariant, plan, tx)
      ensures Activated(old(billing.users.rows), billing.users.rows, u, founderVariant, billing.founderCap, plan, tx)
    {
      SubscribedIs(billing.founderCap, billing.users.rows, u, founderVariant, plan, tx);
      resp := Ok200;
      var users := billing.users;
      var requested := if founderVariant then Founder else Retail;
      ghost var s, cap := Fresh(users.rows), billing.founderCap;
      ReceiveAlone(cap, users.rows, u, requested);
      trace := [Receive(0, u, requested)];
      CallAlone(cap, s, trace, users.rows, Upgrading(u, requested), plan.plan);
      trace := trace + [Call(0, plan.plan)];
      users.UpdatePlan(u, Pro, plan.plan);
      if !plan.plan { return InternalError500, trace; }
      CallAlone(cap, s, trace, users.rows, Linking(u, requested), plan.link);
      trace := trace + [Call(0, plan.link)];
      if !plan.link { return InternalError500, trace; }
      ghost var begun := Exec(cap, s, trace);
      var _, _, calls := billing.TagFromWebhook(u, requested, tx, begun.unsettled);
      ExecConcat(cap, s, trace, calls);
      trace := trace + calls;
    }

    /** `HandleLemonSqueezy` once the signature is checked and the body decoded. `user` is the
        account of the payload's e-mail, `founderVariant` whether its variant is the founder one. */
    method HandleLemonSqueezy(event: string, status: string, user: Option<UserId>, founderVariant: bool,
                              plan: PlanIo, tx: TxIo)
      returns (resp: Response, ghost trace: seq<Action>)
      requires user.Some? ==> user.value in billing.users.rows
      modifies billing.users
      ensures var s := Exec(billing.founderCap, Fresh(old(billing.users.rows)), trace);
              billing.users.rows == s.users && OneWebhook(trace)
      ensures resp.InternalError500? <==>
              user.Some? && ((Activates(event, status) && (!plan.plan || !plan.link)) ||
                             (event == "subscription_cancelled" && !plan.plan))
      ensures user.None? || !(Activates(event, status) || event == "subscription_cancelled") ==> trace == []
      ensures user.Some? && !Activates(event, status) && event == "subscription_cancelled" ==>
                trace == if plan.plan then [Cancel(user.value)] else []
      ensures user.Some? && Activates(event, status) ==>
                && trace != [] && trace[0] == Receive(0, user.value, if founderVariant then Founder else Retail)
                && Exec(billing.founderCap, Fresh(old(billing.users.rows)), trace).threads ==
                   map[0 := Done(resp.Ok200?)]
                && billing.users.rows == Subscribed(billing.founderCap, old(billing.users.rows), user.value,
                                                    founderVariant, plan, tx)
      ensures user.Some? && (event == "subscription_created" || event == "subscription_updated") &&
              status == "active" ==>
                Activated(old(billing.users.rows), billing.users.rows, user.value, founderVariant,
                          billing.founderCap, plan, tx)
      ensures user.Some? && event == "subscription_cancelled" && plan.plan ==>
                billing.users.rows == old(billing.users.rows)[user.value :=
                  User(Free, old(billing.users.rows)[user.value].variant)]
      ensures user.Some? && !founderVariant && event == "subscription_created" && status == "active" &&
              plan == PlanIo(true, true) && tx.write && tx.commit ==>
                billing.users.rows == old(billing.users.rows)[user.value := User(Pro, Retail)]
      ensures (user.None? || (event == "subscription_cancelled" && !plan.plan) ||
               (event != "subscription_cancelled" && status != "active") ||
               (event != "subscription_created" && event != "subscription_updated" &&
                event != "subscription_cancelled")) ==>
                billing.users.rows == old(billing.users.rows)
    {
      resp, trace := Ok200, [];
      if user.None? { return; }
      var u := user.value;
      if Activates(event, status) {
        resp, trace := Activate(u, founderVariant, plan, tx);
      } else if event == "subscription_cancelled" {
        billing.users.UpdatePlan(u, Free, plan.plan);
        if !plan.plan { return InternalError500, []; }
        trace := [Cancel(u)];
        assert trace[..0] == [];
      }
    }
  }

  predicate Activates(event: string, status: string) {
    (event == "subscription_created" || event == "subscription_updated") && status == "active"
  }

  /** A sitting founder is counted against himself: when the cap is exactly full, an event for his
      own live subscription is answered with the retail tag, and a seat is lost. */
  lemma RenewalAtFullCapLosesTheSeat(cap: int, users: Users, u: UserId)
    requires u in ActiveFounders(users) && |ActiveFounders(users)| <= cap
    ensures var after := ActiveFounders(SetVariant(users, u, Chosen(cap, users, Founder)));
            (u in after <==> |ActiveFounders(users)| < cap) &&
            |after| == if |ActiveFounders(users)| == cap then cap - 1 else |ActiveFounders(users)|
  {
    assert ActiveFounders(SetVariant(users, u, Retail)) == ActiveFounders(users) - {u};
    assert ActiveFounders(SetVariant(users, u, Founder)) == ActiveFounders(users);
  }
}
