/** Shared caches that create an object on a miss: the circuit breakers, which are evicted when idle,
    and the HTTP clients, which never are. Every step on the shared map is one action. */
module ObjectCache {
  import opened Wrappers

  type Tid = nat
  type Time = int

  /** Objects have an identity; each is made for one key. */
  datatype Obj<K> = Obj(id: nat, key: K)

  datatype Pc<K> = Hit(found: Obj<K>, now: Time) | Missed(made: Obj<K>)

  // What the map steps did, in order: a call got its object, or the evictor removed a key.
  datatype Entry<K> = Got(obj: Obj<K>) | Evicted(key: K)

  /** `access` holds the times of last access, `marked` the keys that the evictor has found idle and not
      yet removed. */
  datatype State<K> = State(cache: map<K, Obj<K>>, access: map<nat, Time>, made: nat, threads: map<Tid, Pc<K>>,
                            marked: set<K>, log: seq<Entry<K>>)

  datatype Action<K> =
    | Load(t: Tid, key: K, now: Time)
    | Touch(t: Tid)
    | LoadOrStore(t: Tid)
    | Mark(key: K, cutoff: Time)
    | Delete(key: K)

  function Start<K>(): State<K> { State(map[], map[], 0, map[], {}, []) }

  predicate Idle<K(==)>(s: State<K>, key: K, cutoff: Time) {
    key in s.cache && s.cache[key].id in s.access && s.access[s.cache[key].id] < cutoff
  }

  // An action that is not possible leaves the state as it is.
  function Step<K(==)>(s: State<K>, a: Action<K>): State<K> {
    match a
    case Load(t, key, now) =>
      if t in s.threads then s
      else if key in s.cache then
        s.(threads := s.threads[t := Hit(s.cache[key], now)], log := s.log + [Got(s.cache[key])])
      else
        s.(threads := s.threads[t := Missed(Obj(s.made, key))], access := s.access[s.made := now], made := s.made + 1)
    case Touch(t) =>
      if t in s.threads && s.threads[t].Hit? then
        s.(access := s.access[s.threads[t].found.id := s.threads[t].now], threads := s.threads - {t})
      else s
    case LoadOrStore(t) =>
      if t in s.threads && s.threads[t].Missed? then
        var made := s.threads[t].made;
        var actual := if made.key in s.cache then s.cache[made.key] else made;
        s.(cache := s.cache[made.key := actual], threads := s.threads - {t}, log := s.log + [Got(actual)])
      else s
    case Mark(key, cutoff) => if Idle(s, key, cutoff) then s.(marked := s.marked + {key}) else s
    case Delete(key) =>
      if key !in s.marked then s
      else if key in s.cache then
        s.(cache := s.cache - {key}, marked := s.marked - {key}, log := s.log + [Evicted(key)])
      else s.(marked := s.marked - {key})
  }

  function Exec<K(==)>(s: State<K>, acts: seq<Action<K>>): State<K> {
    if acts == [] then s else Step(Exec(s, acts[..|acts| - 1]), acts[|acts| - 1])
  }

  // ---- Invariants ----

  predicate GotFor<K(==)>(e: Entry<K>, key: K) { e.Got? && e.obj.key == key }

  predicate EvictedBetween<K(==)>(log: seq<Entry<K>>, i: nat, j: nat, key: K)
    requires i <= j <= |log|
  {
    Evicted(key) in log[i..j]
  }

  // Objects on their way in are new: no map step has seen them, and no two threads have the same.
  ghost predicate NewOnesAreNew<K>(s: State<K>) {
    && (forall t :: t in s.threads && s.threads[t].Missed? ==>
          && s.threads[t].made.id < s.made && Got(s.threads[t].made) !in s.log
          && (s.threads[t].made.key in s.cache ==> s.cache[s.threads[t].made.key] != s.threads[t].made))
    && (forall t, u :: t in s.threads && u in s.threads && t != u && s.threads[t].Missed? && s.threads[u].Missed? ==>
          s.threads[t].made != s.threads[u].made)
    && (forall i :: 0 <= i < |s.log| && s.log[i].Got? ==> s.log[i].obj.id < s.made)
  }

  ghost predicate CacheFits<K>(s: State<K>) {
    forall key :: key in s.cache ==> s.cache[key].key == key && Got(s.cache[key]) in s.log
  }

  // What was handed out is what the map holds, until the key is evicted; after that it is gone.
  ghost predicate Current<K>(s: State<K>) { forall i :: 0 <= i < |s.log| && s.log[i].Got? ==> CurrentAt(s, i) }

  ghost predicate CurrentAt<K>(s: State<K>, i: nat)
    requires i < |s.log| && s.log[i].Got?
  {
    Holds(s, s.log[i].obj) <==> !EvictedBetween(s.log, i, |s.log|, s.log[i].obj.key)
  }

  predicate Holds<K(==)>(s: State<K>, o: Obj<K>) { o.key in s.cache && s.cache[o.key] == o }

  // Two calls got the same object exactly when their keys are equal and not evicted in between.
  ghost predicate SameUntilEvicted<K>(log: seq<Entry<K>>) {
    forall i, j :: 0 <= i < j < |log| && log[i].Got? && log[j].Got? && log[i].obj.key == log[j].obj.key ==>
      (log[i].obj == log[j].obj <==> !EvictedBetween(log, i, j, log[i].obj.key))
  }

  ghost predicate Inv<K>(s: State<K>) {
    NewOnesAreNew(s) && CacheFits(s) && Current(s) && SameUntilEvicted(s.log)
  }

  lemma LongerLog<K>(log: seq<Entry<K>>, e: Entry<K>, i: nat, key: K)
    requires i <= |log|
    ensures EvictedBetween(log + [e], i, |log| + 1, key) <==> EvictedBetween(log, i, |log|, key) || e == Evicted(key)
    ensures forall j :: i <= j <= |log| ==> (EvictedBetween(log + [e], i, j, key) <==> EvictedBetween(log, i, j, key))
  {
    assert (log + [e])[i..|log| + 1] == log[i..] + [e];
    assert log[i..|log|] == log[i..];
    forall j | i <= j <= |log| ensures (log + [e])[i..j] == log[i..j] { }
  }

  // `o` is what a call for its key gets now.
  predicate Gettable<K(==)>(s: State<K>, o: Obj<K>) {
    if o.key in s.cache then s.cache[o.key] == o else Got(o) !in s.log
  }

  lemma GettingKeepsAt<K>(s: State<K>, n: State<K>, o: Obj<K>, i: nat)
    requires n.log == s.log + [Got(o)] && n.cache == s.cache[o.key := o] && Gettable(s, o)
    requires i < |s.log| && s.log[i].Got? && CurrentAt(s, i)
    ensures n.log[i] == s.log[i] && CurrentAt(n, i)
    ensures s.log[i].obj.key == o.key ==> (s.log[i].obj == o <==> !EvictedBetween(s.log, i, |s.log|, o.key))
  {
    LongerLog(s.log, Got(o), i, s.log[i].obj.key);
    assert s.log[i] in s.log;
  }

  lemma SameKeeps<K>(log: seq<Entry<K>>, e: Entry<K>)
    requires SameUntilEvicted(log)
    requires e.Got? ==> forall i :: 0 <= i < |log| && GotFor(log[i], e.obj.key) ==>
      (log[i].obj == e.obj <==> !EvictedBetween(log, i, |log|, e.obj.key))
    ensures SameUntilEvicted(log + [e])
  {
    var n := log + [e];
    forall i, j | 0 <= i < j < |n| && n[i].Got? && n[j].Got? && n[i].obj.key == n[j].obj.key
      ensures n[i].obj == n[j].obj <==> !EvictedBetween(n, i, j, n[i].obj.key)
    {
      LongerLog(log, e, i, n[i].obj.key);
      assert j == |log| ==> GotFor(log[i], e.obj.key);
    }
  }

  // A call gets what the map then holds.
  lemma GettingKeeps<K>(s: State<K>, n: State<K>, o: Obj<K>)
    requires Current(s) && SameUntilEvicted(s.log)
    requires n.log == s.log + [Got(o)] && n.cache == s.cache[o.key := o] && Gettable(s, o)
    ensures Current(n) && SameUntilEvicted(n.log)
  {
    var m := |s.log|;
    assert n.log[m..m + 1] == [Got(o)];
    assert CurrentAt(n, m);
    forall i | 0 <= i < m && s.log[i].Got?
      ensures n.log[i] == s.log[i] && CurrentAt(n, i)
      ensures s.log[i].obj.key == o.key ==> (s.log[i].obj == o <==> !EvictedBetween(s.log, i, m, o.key))
    {
      GettingKeepsAt(s, n, o, i);
    }
    SameKeeps(s.log, Got(o));
  }

  lemma EvictingKeeps<K>(s: State<K>, n: State<K>, key: K)
    requires Current(s) && SameUntilEvicted(s.log)
    requires n.log == s.log + [Evicted(key)] && n.cache == s.cache - {key}
    ensures Current(n) && SameUntilEvicted(n.log)
  {
    forall i | 0 <= i < |s.log| && s.log[i].Got? ensures n.log[i] == s.log[i] && CurrentAt(n, i) {
      assert CurrentAt(s, i);
      LongerLog(s.log, Evicted(key), i, s.log[i].obj.key);
    }
    SameKeeps(s.log, Evicted(key));
  }

  lemma MapStepKeeps<K>(s: State<K>, a: Action<K>)
    requires Inv(s)
    ensures Current(Step(s, a)) && SameUntilEvicted(Step(s, a).log)
  {
    var n := Step(s, a);
    match a {
      case Load(t, key, now) =>
        if t !in s.threads && key in s.cache { GettingKeeps(s, n, s.cache[key]); }
      case LoadOrStore(t) =>
        if t in s.threads && s.threads[t].Missed? {
          var made := s.threads[t].made;
          GettingKeeps(s, n, if made.key in s.cache then s.cache[made.key] else made);
        }
      case Delete(key) =>
        if key in s.marked && key in s.cache { EvictingKeeps(s, n, key); }
      case _ =>
    }
  }

  lemma LoadKeeps<K>(s: State<K>, a: Action<K>)
    requires NewOnesAreNew(s) && CacheFits(s) && a.Load?
    ensures NewOnesAreNew(Step(s, a)) && CacheFits(Step(s, a))
  {
    var n := Step(s, a);
    assert forall e :: e in s.log ==> e in n.log;
    if a.t !in s.threads && a.key in s.cache {
      assert n.log == s.log + [Got(s.cache[a.key])] && Got(s.cache[a.key]) in s.log;
      assert forall e :: e in n.log ==> e in s.log;
    } else if a.t !in s.threads {
      var made := Obj(s.made, a.key);
      assert Got(made) !in s.log;
      assert a.key !in s.cache;
    }
  }

  lemma StoreKeeps<K>(s: State<K>, a: Action<K>)
    requires NewOnesAreNew(s) && CacheFits(s) && a.LoadOrStore?
    ensures NewOnesAreNew(Step(s, a)) && CacheFits(Step(s, a))
  {
    var n := Step(s, a);
    if a.t in s.threads && s.threads[a.t].Missed? {
      var made := s.threads[a.t].made;
      var actual := if made.key in s.cache then s.cache[made.key] else made;
      assert n.log == s.log + [Got(actual)];
      assert forall e :: e in n.log <==> e in s.log || e == Got(actual);
      assert forall t :: t in n.threads ==> t in s.threads && t != a.t && n.threads[t] == s.threads[t];
    }
  }

  lemma StepKeeps<K>(s: State<K>, a: Action<K>)
    requires Inv(s)
    ensures Inv(Step(s, a))
  {
    MapStepKeeps(s, a);
    var n := Step(s, a);
    match a {
      case Load(_, _, _) => LoadKeeps(s, a);
      case LoadOrStore(_) => StoreKeeps(s, a);
      case Delete(key) =>
        assert forall o :: Got(o) in n.log <==> Got(o) in s.log;
      case _ =>
    }
  }

  lemma {:induction false} ExecKeeps<K>(acts: seq<Action<K>>)
    ensures Inv(Exec(Start<K>(), acts))
  {
    if acts != [] {
      ExecKeeps(acts[..|acts| - 1]);
      StepKeeps(Exec(Start<K>(), acts[..|acts| - 1]), acts[|acts| - 1]);
    }
  }

  // ---- What callers can rely on ----

  /** Two calls, by the order of their map steps, get the same object if and only if they ask for the
      same key and the key is not evicted between these steps. */
  lemma SameObjectExactly<K>(acts: seq<Action<K>>, i: nat, j: nat)
    requires var log := Exec(Start<K>(), acts).log; i < j < |log| && log[i].Got? && log[j].Got?
    ensures var log := Exec(Start<K>(), acts).log;
            log[i].obj == log[j].obj <==>
            log[i].obj.key == log[j].obj.key && !EvictedBetween(log, i, j, log[i].obj.key)
  {
    ExecKeeps(acts);
  }

  lemma {:induction false} NothingEvicted<K>(acts: seq<Action<K>>)
    requires forall k :: 0 <= k < |acts| ==> !acts[k].Mark?
    ensures var s := Exec(Start<K>(), acts); s.marked == {} && forall e :: e in s.log ==> e.Got?
  {
    if acts != [] { NothingEvicted(acts[..|acts| - 1]); }
  }

  /** Where nothing is ever evicted, as for the HTTP clients by timeout, there is one object per key for
      good. */
  lemma OneObjectPerKey<K>(acts: seq<Action<K>>, i: nat, j: nat)
    requires forall k :: 0 <= k < |acts| ==> !acts[k].Mark?
    requires i < |Exec(Start<K>(), acts).log| && j < |Exec(Start<K>(), acts).log|
    ensures var log := Exec(Start<K>(), acts).log;
            log[i].Got? && log[j].Got? && (log[i].obj == log[j].obj <==> log[i].obj.key == log[j].obj.key)
  {
    NothingEvicted(acts);
    var log := Exec(Start<K>(), acts).log;
    assert log[i] in log && log[j] in log;
    if i != j {
      var first, last := if i < j then i else j, if i < j then j else i;
      SameObjectExactly(acts, first, last);
      assert forall e :: e in log[first..last] ==> e in log;
    }
  }

  // ---- Calls and their answers ----

  // The key that the latest call of `t` asked for: a load begins a call when no other is under way.
  function Asked<K(==)>(acts: seq<Action<K>>, t: Tid): Option<K> {
    if acts == [] then None
    else
      var init, last := acts[..|acts| - 1], acts[|acts| - 1];
      if last.Load? && last.t == t && t !in Exec(Start<K>(), init).threads then Some(last.key) else Asked(init, t)
  }

  // A thread that is to store an object made it for the key it asked for.
  lemma {:induction false} MadeForTheKeyAsked<K>(acts: seq<Action<K>>, t: Tid)
    ensures var s := Exec(Start<K>(), acts);
            t in s.threads && s.threads[t].Missed? ==> Asked(acts, t) == Some(s.threads[t].made.key)
  {
    if acts != [] { MadeForTheKeyAsked(acts[..|acts| - 1], t); }
  }

  /** Step `n` is the map step that answers a call for `key` with `o`: a load that hits, or the
      load-or-store that follows a miss. */
  ghost predicate Answers<K>(acts: seq<Action<K>>, n: nat, key: K, o: Obj<K>) {
    n < |acts| &&
    var s, t := Exec(Start<K>(), acts[..n]), Exec(Start<K>(), acts[..n + 1]);
    && t.log == s.log + [Got(o)]
    && match acts[n]
       case Load(_, k, _) => k == key
       case LoadOrStore(w) => Asked(acts[..n], w) == Some(key)
       case _ => false
  }

  /** In any interleaving a call is answered with an object made for the key it asked for. */
  lemma AnsweredWithItsKey<K>(acts: seq<Action<K>>, n: nat, key: K, o: Obj<K>)
    requires Answers(acts, n, key, o)
    ensures o.key == key
  {
    var s := Exec(Start<K>(), acts[..n]);
    ExecKeeps(acts[..n]);
    assert acts[..n + 1][..n] == acts[..n];
    assert Step(s, acts[n]).log[|s.log|] == Got(o);
    if acts[n].LoadOrStore? { MadeForTheKeyAsked(acts[..n], acts[n].t); }
  }

  // ---- What the evictor may remove ----

  // Step `k` found the object of the key there, last accessed before the cutoff.
  ghost predicate FoundIdleAt<K>(acts: seq<Action<K>>, k: nat, key: K)
    requires k < |acts|
  {
    var s := Exec(Start<K>(), acts[..k]);
    && acts[k].Mark? && acts[k].key == key && key in s.cache && s.cache[key].id in s.access
    && s.access[s.cache[key].id] < acts[k].cutoff
  }

  /** A key that the evictor is to remove was found idle by an earlier step of it. */
  lemma {:induction false} MarkedWasIdle<K>(acts: seq<Action<K>>, key: K)
    requires key in Exec(Start<K>(), acts).marked
    ensures exists k :: 0 <= k < |acts| && FoundIdleAt(acts, k, key)
  {
    var n := |acts| - 1;
    if key in Exec(Start<K>(), acts[..n]).marked {
      MarkedWasIdle(acts[..n], key);
      var k :| 0 <= k < n && FoundIdleAt(acts[..n], k, key);
      assert acts[..n][..k] == acts[..k];
      assert FoundIdleAt(acts, k, key);
    } else {
      assert FoundIdleAt(acts, n, key);
    }
  }

  /** A step that takes an object out of the map is the removal of a key found idle before. */
  lemma {:induction false} RemovedWasIdle<K>(acts: seq<Action<K>>, a: Action<K>, key: K)
    requires key in Exec(Start<K>(), acts).cache && key !in Step(Exec(Start<K>(), acts), a).cache
    ensures a == Delete(key) && exists k :: 0 <= k < |acts| && FoundIdleAt(acts, k, key)
  {
    MarkedWasIdle(acts, key);
  }

  /** The evictor's two steps for a key, with nothing in between, remove its object exactly when that is
      idle, and touch no other. */
  lemma IdleIsRemoved<K>(s: State<K>, key: K, cutoff: Time)
    requires key !in s.marked && key in s.cache && s.cache[key].id in s.access
    ensures Step(Step(s, Mark(key, cutoff)), Delete(key)).cache ==
            if s.access[s.cache[key].id] < cutoff then s.cache - {key} else s.cache
  {
  }
}
