/** The validation sweeps as the periodic job they are: any number of instances begin them under a lock
    that expires. */
module LockedSweeps {
  import opened Wrappers
  import opened CustomDomains
  import Text
  import Fleet
  import L = LockedLoop
  import S = OverlappingSweeps

  datatype State = State(loop: L.Loop, sweeps: S.State)

  /** Time passes, an instance ticks, a step of a sweep or of a user, an instance is done with its sweep,
      or dies in the middle of it. */
  datatype Action = Pass(d: nat) | Tick(i: nat) | Sweeping(a: S.Action) | End(i: nat) | Crash(i: nat)

  const START := State(L.Loop(0, Fleet.Free, 0, map[]), S.EMPTY)

  predicate Busy(s: S.State, i: nat) { i in s.workers && S.Running(s.workers[i]) }

  // What an action is to the loop, and what it is to the domains.
  function LoopPart(s: State, a: Action): L.Event {
    match a
    case Pass(d) => L.Pass(d)
    case Tick(i) => L.Begin(i)
    case Sweeping(_) => L.Pass(0)
    case End(i) => if Busy(s.sweeps, i) then L.Pass(0) else L.End(i)
    case Crash(i) => L.Crash(i)
  }

  function SweepPart(s: State, a: Action): S.Action {
    match a
    case Tick(i) =>
      if i !in s.loop.jobs && Fleet.Available(s.loop.lease, s.loop.now) then S.Begin(i) else S.Other
    case Sweeping(b) => if b.Begin? || b.Abandon? then S.Other else b
    case Crash(i) => if i in s.loop.jobs then S.Abandon(i) else S.Other
    case _ => S.Other
  }

  function Step(expiry: int, s: State, a: Action): State {
    State(L.Next(expiry, s.loop, LoopPart(s, a)), S.Step(s.sweeps, SweepPart(s, a)))
  }

  function Exec(expiry: int, acts: seq<Action>): State {
    if acts == [] then START else Step(expiry, Exec(expiry, acts[..|acts| - 1]), acts[|acts| - 1])
  }

  // ---- The two parts of a run ----

  function Events(expiry: int, acts: seq<Action>): (es: seq<L.Event>)
    ensures |es| == |acts|
  {
    if acts == [] then []
    else
      var rest := acts[..|acts| - 1];
      Events(expiry, rest) + [LoopPart(Exec(expiry, rest), acts[|acts| - 1])]
  }

  function Moves(expiry: int, acts: seq<Action>): (ms: seq<S.Action>)
    ensures |ms| == |acts|
  {
    if acts == [] then []
    else
      var rest := acts[..|acts| - 1];
      Moves(expiry, rest) + [SweepPart(Exec(expiry, rest), acts[|acts| - 1])]
  }

  lemma {:induction false} PartsOfPrefix(expiry: int, acts: seq<Action>, k: nat)
    requires k <= |acts|
    ensures Events(expiry, acts)[..k] == Events(expiry, acts[..k])
    ensures Moves(expiry, acts)[..k] == Moves(expiry, acts[..k])
  {
    if k == |acts| {
      assert acts[..k] == acts;
    } else {
      var rest := acts[..|acts| - 1];
      PartsOfPrefix(expiry, rest, k);
      assert rest[..k] == acts[..k];
    }
  }

  lemma {:induction false} PartsRun(expiry: int, acts: seq<Action>)
    ensures Exec(expiry, acts).loop == L.Play(expiry, START.loop, Events(expiry, acts))
    ensures Exec(expiry, acts).sweeps == S.Exec(S.EMPTY, Moves(expiry, acts))
  {
    if acts != [] {
      var n := |acts| - 1;
      PartsRun(expiry, acts[..n]);
      assert Events(expiry, acts)[..n] == Events(expiry, acts[..n]);
      assert Moves(expiry, acts)[..n] == Moves(expiry, acts[..n]);
    }
  }

  // Every sweep under way is a job of the loop.
  ghost predicate JobsCover(s: State) { forall i :: Busy(s.sweeps, i) ==> i in s.loop.jobs }

  lemma StepKeepsCover(expiry: int, s: State, a: Action)
    requires JobsCover(s)
    ensures JobsCover(Step(expiry, s, a))
  {
    var s' := Step(expiry, s, a);
    forall i | Busy(s'.sweeps, i) ensures i in s'.loop.jobs {
      if !Busy(s.sweeps, i) { assert a == Tick(i); }
    }
  }

  lemma {:induction false} RunCovers(expiry: int, acts: seq<Action>)
    ensures JobsCover(Exec(expiry, acts))
  {
    if acts != [] {
      RunCovers(expiry, acts[..|acts| - 1]);
      StepKeepsCover(expiry, Exec(expiry, acts[..|acts| - 1]), acts[|acts| - 1]);
    }
  }

  // ---- Sweeps shorter than the lock's lifetime ----

  /** At every moment of the run each sweep under way began less than `limit` ago. */
  ghost predicate Prompt(expiry: int, acts: seq<Action>, limit: int) {
    forall k :: 0 <= k <= |acts| ==> L.AllShort(limit, Exec(expiry, acts[..k]).loop)
  }

  lemma PromptIsSequential(expiry: int, acts: seq<Action>, limit: int, k: nat)
    requires Prompt(expiry, acts, limit) && limit <= expiry && k <= |acts|
    ensures S.Sequential(S.Exec(S.EMPTY, Moves(expiry, acts)[..k]))
  {
    var es := Events(expiry, acts)[..k];
    forall j | 0 <= j <= |es| ensures L.AllShort(expiry, L.Play(expiry, START.loop, es[..j])) {
      assert es[..j] == Events(expiry, acts)[..j];
      PartsOfPrefix(expiry, acts, j);
      PartsRun(expiry, acts[..j]);
      assert L.AllShort(limit, Exec(expiry, acts[..j]).loop);
    }
    L.ShortJobsNeverOverlap(expiry, START.loop, es);
    PartsOfPrefix(expiry, acts, k);
    PartsRun(expiry, acts[..k]);
    RunCovers(expiry, acts[..k]);
    var s := Exec(expiry, acts[..k]);
    var t := s.sweeps;
    assert t == S.Exec(S.EMPTY, Moves(expiry, acts)[..k]) && L.AtMostOneJob(s.loop);
    forall w, v | w in t.workers && v in t.workers && S.Running(t.workers[w]) && S.Running(t.workers[v])
      ensures w == v
    {
      assert Busy(t, w) && Busy(t, v);
    }
  }

  predicate Deletes(a: Action, id: RowId) { a.Sweeping? && a.a.Delete? && a.a.id == id }

  // Active after the first `i` steps, and not deleted by any later one.
  ghost predicate ActiveSince(expiry: int, acts: seq<Action>, i: nat, id: RowId) {
    && i <= |acts| && S.ActiveIn(Exec(expiry, acts[..i]).sweeps.rows, id)
    && forall k :: i <= k < |acts| ==> !Deletes(acts[k], id)
  }

  lemma MoveAt(expiry: int, acts: seq<Action>, k: nat)
    requires k < |acts|
    ensures Moves(expiry, acts)[k] == SweepPart(Exec(expiry, acts[..k]), acts[k])
  {
    PartsOfPrefix(expiry, acts, k + 1);
    assert Moves(expiry, acts)[k] == Moves(expiry, acts)[..k + 1][k];
    assert acts[..k + 1][..k] == acts[..k];
  }

  lemma PromptKeepsActive(expiry: int, acts: seq<Action>, limit: int, i: nat, id: RowId)
    requires Prompt(expiry, acts, limit) && limit <= expiry && ActiveSince(expiry, acts, i, id)
    ensures S.ActiveIn(Exec(expiry, acts).sweeps.rows, id)
  {
    var ms := Moves(expiry, acts);
    PartsOfPrefix(expiry, acts, i);
    PartsRun(expiry, acts[..i]);
    PartsRun(expiry, acts);
    forall k | 0 <= k <= |ms| ensures S.Sequential(S.Exec(S.EMPTY, ms[..k])) {
      PromptIsSequential(expiry, acts, limit, k);
    }
    forall k | i <= k < |ms| ensures !(ms[k].Delete? && ms[k].id == id) {
      MoveAt(expiry, acts, k);
      assert !Deletes(acts[k], id);
    }
    S.ActiveUntilDeleted(ms, i, id);
  }

  // ---- A sweep that lasts as long as the lock ----

  // By a run whose sweeps are all under way for less than `limit`.
  ghost predicate Reachable(expiry: int, limit: int, s: State) {
    exists acts :: Prompt(expiry, acts, limit) && Exec(expiry, acts) == s
  }

  lemma StartReachable(expiry: int, limit: int)
    ensures Reachable(expiry, limit, START)
  {
    var acts: seq<Action> := [];
    assert Prompt(expiry, acts, limit) && Exec(expiry, acts) == START;
  }

  lemma Extend(expiry: int, limit: int, acts: seq<Action>, a: Action)
    requires Prompt(expiry, acts, limit) && L.AllShort(limit, Step(expiry, Exec(expiry, acts), a).loop)
    ensures Prompt(expiry, acts + [a], limit) && Exec(expiry, acts + [a]) == Step(expiry, Exec(expiry, acts), a)
  {
    var more := acts + [a];
    assert more[..|acts|] == acts;
    forall k | 0 <= k <= |more| ensures L.AllShort(limit, Exec(expiry, more[..k]).loop) {
      if k <= |acts| { assert more[..k] == acts[..k]; } else { assert more[..k] == more; }
    }
  }

  lemma Go(expiry: int, limit: int, s: State, a: Action) returns (s': State)
    requires Reachable(expiry, limit, s) && L.AllShort(limit, Step(expiry, s, a).loop)
    ensures Reachable(expiry, limit, s') && s' == Step(expiry, s, a)
  {
    var acts :| Prompt(expiry, acts, limit) && Exec(expiry, acts) == s;
    Extend(expiry, limit, acts, a);
    s' := Step(expiry, s, a);
  }

  const GOOD := RowIo(Answer(200, Some("t")), true, true)
  const BAD := RowIo(Unreachable, false, true)

  function DomainIn(status: Status): Table { [Row(0, 1, "h", "t", status)] }

  lemma ListsIt(status: Status)
    requires !status.Active?
    ensures ListPending(DomainIn(status), BATCH) == DomainIn(status)
  {
    var t := DomainIn(status);
    assert t[1..] == [] && ListPending(t, BATCH) == [t[0]] + ListPending([], BATCH - 1);
  }

  function Begun(status: Status): S.Worker { S.Worker(DomainIn(status), None) }

  function About(status: Status, write: Status): S.Worker { S.Worker(DomainIn(status), Some(S.Write(0, write))) }

  const OVER := S.Worker([], None)

  // The first sweep, of instance 0, at a moment of its own.
  function First(expiry: int, x: S.Worker, log: seq<S.Mark>): State {
    State(L.Loop(0, Fleet.Held(0, 1, expiry), 1, map[0 := 0]), S.State(DomainIn(Pending), 1, map[0 := x], log))
  }

  const REQUESTED := State(START.loop, S.State(DomainIn(Pending), 1, map[], []))

  lemma Requested(expiry: nat, limit: int)
    requires expiry < limit
    ensures Reachable(expiry, limit, REQUESTED)
  {
    StartReachable(expiry, limit);
    var s := Go(expiry, limit, START, Sweeping(S.Request(1, "h", "t")));
    assert s.sweeps.rows == DomainIn(Pending);
    assert s == REQUESTED;
  }

  // A domain has been requested, and the first sweep begins.
  lemma FirstBegun(expiry: nat, limit: int)
    requires expiry < limit
    ensures Reachable(expiry, limit, First(expiry, Begun(Pending), []))
  {
    Requested(expiry, limit);
    ListsIt(Pending);
    var s := Go(expiry, limit, REQUESTED, Tick(0));
    assert s == First(expiry, Begun(Pending), []);
  }

  // It is about to write the domain validated.
  lemma Proven(expiry: nat, limit: int)
    requires expiry < limit
    ensures Reachable(expiry, limit, First(expiry, About(Pending, Validated), [S.Proved(0)]))
  {
    FirstBegun(expiry, limit);
    assert ProvesOwnership(GOOD.probe, "t") by { Text.TrimPadded("", "t", ""); assert "" + "t" + "" == "t"; }
    var s := Go(expiry, limit, First(expiry, Begun(Pending), []), Sweeping(S.Call(0, GOOD)));
    assert s == First(expiry, About(Pending, Validated), [S.Proved(0)]);
  }

  const VALIDATED := [S.Proved(0), S.Wrote(0)]

  // The domain has been written validated.
  function Written(expiry: int): State {
    State(First(expiry, OVER, []).loop, S.State(DomainIn(Validated), 1, map[0 := OVER], VALIDATED))
  }

  lemma FirstWritten(expiry: nat, limit: int)
    requires expiry < limit
    ensures Reachable(expiry, limit, Written(expiry))
  {
    Proven(expiry, limit);
    var s := First(expiry, About(Pending, Validated), [S.Proved(0)]);
    assert DomainIn(Pending)[1..] == [];
    assert SetStatus(DomainIn(Pending), 0, Validated) == DomainIn(Validated);
    assert S.HasId(DomainIn(Pending), 0) by { assert DomainIn(Pending)[0].id == 0; }
    s := Go(expiry, limit, s, Sweeping(S.Commit(0, true)));
    assert s.sweeps.log == VALIDATED && s.sweeps.workers == map[0 := OVER];
    assert s == Written(expiry);
  }

  // The first sweep is over.
  function Between(expiry: int): State {
    State(L.Loop(0, if expiry > 0 then Fleet.Free else Fleet.Held(0, 1, 0), 1, map[]),
          S.State(DomainIn(Validated), 1, map[0 := OVER], VALIDATED))
  }

  lemma FirstSweep(expiry: nat, limit: int)
    requires expiry < limit
    ensures Reachable(expiry, limit, Between(expiry))
  {
    FirstWritten(expiry, limit);
    var s := Go(expiry, limit, Written(expiry), End(0));
    assert s.loop.jobs == map[];
    assert s == Between(expiry);
  }

  // A second sweep is under way, and still is when its lock expires.
  function Second(expiry: int, now: int): State {
    State(L.Loop(now, Fleet.Held(0, 2, expiry), 2, map[0 := 0]),
          S.State(DomainIn(Validated), 1, map[0 := Begun(Validated)], VALIDATED))
  }

  lemma SecondBegun(expiry: nat, limit: int)
    requires expiry < limit
    ensures Reachable(expiry, limit, Second(expiry, 0))
  {
    FirstSweep(expiry, limit);
    ListsIt(Validated);
    var s := Go(expiry, limit, Between(expiry), Tick(0));
    assert s == Second(expiry, 0);
  }

  lemma SecondSweep(expiry: nat, limit: int)
    requires expiry < limit
    ensures Reachable(expiry, limit, Second(expiry, expiry))
  {
    SecondBegun(expiry, limit);
    var s := Go(expiry, limit, Second(expiry, 0), Pass(expiry));
    assert s == Second(expiry, expiry);
  }

  // A third has begun from the same snapshot.
  function TwoSweeps(expiry: int, status: Status, x: S.Worker, y: S.Worker, log: seq<S.Mark>): State {
    State(L.Loop(expiry, Fleet.Held(1, 3, expiry + expiry), 3, map[0 := 0, 1 := expiry]),
          S.State(DomainIn(status), 1, map[0 := x, 1 := y], log))
  }

  lemma BothBegun(expiry: nat, limit: int)
    requires expiry < limit
    ensures Reachable(expiry, limit, TwoSweeps(expiry, Validated, Begun(Validated), Begun(Validated), VALIDATED))
  {
    SecondSweep(expiry, limit);
    ListsIt(Validated);
    var s := Go(expiry, limit, Second(expiry, expiry), Tick(1));
    assert s == TwoSweeps(expiry, Validated, Begun(Validated), Begun(Validated), VALIDATED);
  }

  const ISSUED := VALIDATED + [S.Issued(0)]

  lemma BothDecided(expiry: nat, limit: int)
    requires expiry < limit
    ensures Reachable(expiry, limit,
                      TwoSweeps(expiry, Validated, About(Validated, Active), About(Validated, Failed), ISSUED))
  {
    BothBegun(expiry, limit);
    var s := TwoSweeps(expiry, Validated, Begun(Validated), Begun(Validated), VALIDATED);
    s := Go(expiry, limit, s, Sweeping(S.Call(0, GOOD)));
    assert s == TwoSweeps(expiry, Validated, About(Validated, Active), Begun(Validated), ISSUED);
    s := Go(expiry, limit, s, Sweeping(S.Call(1, BAD)));
    assert s == TwoSweeps(expiry, Validated, About(Validated, Active), About(Validated, Failed), ISSUED);
  }

  // One of the two has made the domain active, the other is about to write it failed.
  lemma OneActiveOneFailing(expiry: nat, limit: int)
    requires expiry < limit
    ensures Reachable(expiry, limit, TwoSweeps(expiry, Active, OVER, About(Validated, Failed), ISSUED))
  {
    BothDecided(expiry, limit);
    var s := TwoSweeps(expiry, Validated, About(Validated, Active), About(Validated, Failed), ISSUED);
    assert DomainIn(Validated)[1..] == [];
    s := Go(expiry, limit, s, Sweeping(S.Commit(0, true)));
    assert s.sweeps.rows == DomainIn(Active);
    assert s == TwoSweeps(expiry, Active, OVER, About(Validated, Failed), ISSUED);
  }

  // ---- Exactly when ----

  ghost predicate StaysActive(expiry: int, limit: int) {
    forall acts, i: nat, id :: Prompt(expiry, acts, limit) && ActiveSince(expiry, acts, i, id) ==>
      S.ActiveIn(Exec(expiry, acts).sweeps.rows, id)
  }

  lemma LongSweepsDemote(expiry: nat, limit: int)
    requires expiry < limit
    ensures !StaysActive(expiry, limit)
  {
    OneActiveOneFailing(expiry, limit);
    var s := TwoSweeps(expiry, Active, OVER, About(Validated, Failed), ISSUED);
    var acts :| Prompt(expiry, acts, limit) && Exec(expiry, acts) == s;
    var a := Sweeping(S.Commit(1, true));
    Extend(expiry, limit, acts, a);
    var more := acts + [a];
    assert s.sweeps.rows[0].status.Active?;
    assert more[..|acts|] == acts;
    assert ActiveSince(expiry, more, |acts|, 0);
    assert Exec(expiry, more).sweeps.rows == DomainIn(Failed);
  }

  /** Active domains stay active until they are deleted, on every run whose sweeps are under way for less
      than `limit`, if and only if `limit` does not exceed the lifetime of the lock. */
  lemma {:induction false} StaysActiveExactly(expiry: nat, limit: int)
    ensures StaysActive(expiry, limit) <==> limit <= expiry
  {
    if limit <= expiry {
      forall acts, i: nat, id | Prompt(expiry, acts, limit) && ActiveSince(expiry, acts, i, id)
        ensures S.ActiveIn(Exec(expiry, acts).sweeps.rows, id)
      {
        PromptKeepsActive(expiry, acts, limit, i, id);
      }
    } else {
      LongSweepsDemote(expiry, limit);
    }
  }
}
