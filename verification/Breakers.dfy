/** The circuit breaker of each alert channel, and the HTTP client of each timeout: the two users of the
    shared caches. */
module Breakers {
  import opened Wrappers
  import opened ObjectCache

  type Cb = Obj<string>
  type Client = Obj<int>

  const TTL := 3600

  // ---- Keys ----

  // The text of a UUID has 36 characters.
  const UUID_LENGTH := 36

  function CbKey(channelType: string, channel: string): string { channelType + ":" + channel }

  lemma KeysDiffer(t: string, c: string, u: string, d: string)
    requires |c| == |d| == UUID_LENGTH && CbKey(t, c) == CbKey(u, d)
    ensures t == u && c == d
  {
    var k := CbKey(t, c);
    assert |t| == |u|;
    assert t == k[..|t|] && u == k[..|u|];
    assert c == k[|t| + 1..] && d == k[|u| + 1..];
  }

  /** However the calls and the evictor interleave, two calls for different channels, or for one channel
      under two types, are never answered with the same breaker. */
  lemma ChannelsNeverShare(acts: seq<Action<string>>, n: nat, m: nat, t: string, c: string, u: string, d: string,
                           o: Cb, p: Cb)
    requires |c| == |d| == UUID_LENGTH && (t != u || c != d)
    requires Answers(acts, n, CbKey(t, c), o) && Answers(acts, m, CbKey(u, d), p)
    ensures o != p
  {
    AnsweredWithItsKey(acts, n, CbKey(t, c), o);
    AnsweredWithItsKey(acts, m, CbKey(u, d), p);
    if CbKey(t, c) == CbKey(u, d) { KeysDiffer(t, c, u, d); }
  }

  // ---- The evictor's race ----

  // The object was last accessed at `cutoff` or later; a call that has it but has not touched it does not count.
  predicate AccessedSince(s: State<string>, o: Cb, cutoff: Time) { o.id in s.access && s.access[o.id] >= cutoff }

  // A call that was handed `o` writes its time into it.
  predicate Touches(s: State<string>, a: Action<string>, o: Cb) {
    a.Touch? && a.t in s.threads && s.threads[a.t].Hit? && s.threads[a.t].found.id == o.id
  }

  ghost predicate TouchesAt(acts: seq<Action<string>>, l: nat, o: Cb, cutoff: Time, late: bool)
    requires l < |acts|
  {
    var s := Exec(Start<string>(), acts[..l]);
    Touches(s, acts[l], o) && (s.threads[acts[l].t].now >= cutoff <==> late)
  }

  // After step `k` and before step `n` a call touched `o` at the cutoff or later, and none touched it
  // with an older time after that.
  ghost predicate TouchedSince(acts: seq<Action<string>>, k: nat, n: nat, o: Cb, cutoff: Time)
    requires n <= |acts|
  {
    exists l :: k < l < n && LastsFrom(acts, l, n, o, cutoff)
  }

  ghost predicate LastsFrom(acts: seq<Action<string>>, l: nat, n: nat, o: Cb, cutoff: Time)
    requires l < n <= |acts|
  {
    TouchesAt(acts, l, o, cutoff, true) && forall j :: l < j < n ==> !TouchesAt(acts, j, o, cutoff, false)
  }

  lemma TouchedNext(acts: seq<Action<string>>, k: nat, n: nat, o: Cb, cutoff: Time)
    requires k < n < |acts|
    ensures TouchedSince(acts, k, n + 1, o, cutoff) <==>
            TouchesAt(acts, n, o, cutoff, true) ||
            (TouchedSince(acts, k, n, o, cutoff) && !TouchesAt(acts, n, o, cutoff, false))
  {
    if TouchesAt(acts, n, o, cutoff, true) {
      assert LastsFrom(acts, n, n + 1, o, cutoff);
    } else if TouchedSince(acts, k, n, o, cutoff) && !TouchesAt(acts, n, o, cutoff, false) {
      var l :| k < l < n && LastsFrom(acts, l, n, o, cutoff);
      assert LastsFrom(acts, l, n + 1, o, cutoff);
    }
    if TouchedSince(acts, k, n + 1, o, cutoff) {
      var l :| k < l < n + 1 && LastsFrom(acts, l, n + 1, o, cutoff);
      if l < n { assert LastsFrom(acts, l, n, o, cutoff); }
    }
  }

  // A step writes the time of `o` only by touching it, and takes it out only by a delete.
  lemma AccessMoves(s: State<string>, a: Action<string>, key: string, o: Cb, cutoff: Time)
    requires key in s.cache && s.cache[key] == o && o.id < s.made && a != Delete(key)
    ensures var s' := Step(s, a);
            && key in s'.cache && s'.cache[key] == o && o.id < s'.made
            && (Touches(s, a, o) ==> (AccessedSince(s', o, cutoff) <==> s.threads[a.t].now >= cutoff))
            && (!Touches(s, a, o) ==> (AccessedSince(s', o, cutoff) <==> AccessedSince(s, o, cutoff)))
  {
  }

  lemma CachedIsOld(acts: seq<Action<string>>, key: string)
    ensures var s := Exec(Start<string>(), acts); key in s.cache ==> s.cache[key].id < s.made
  {
    ExecKeeps(acts);
  }

  // After `n` steps the object the evictor looked at, at step `k`, is still the one for the key.
  ghost predicate StillThere(acts: seq<Action<string>>, k: nat, n: nat, key: string, o: Cb, cutoff: Time)
    requires n <= |acts|
  {
    var t := Exec(Start<string>(), acts[..n]);
    && key in t.cache && t.cache[key] == o && o.id < t.made
    && (AccessedSince(t, o, cutoff) <==> TouchedSince(acts, k, n, o, cutoff))
  }

  lemma ExecNext(acts: seq<Action<string>>, n: nat)
    requires n < |acts|
    ensures Exec(Start<string>(), acts[..n + 1]) == Step(Exec(Start<string>(), acts[..n]), acts[n])
  {
    assert acts[..n + 1][..n] == acts[..n];
  }

  lemma StillThereFirst(acts: seq<Action<string>>, k: nat, key: string, cutoff: Time)
    requires k < |acts| && acts[k] == Mark(key, cutoff) && Idle(Exec(Start<string>(), acts[..k]), key, cutoff)
    ensures StillThere(acts, k, k + 1, key, Exec(Start<string>(), acts[..k]).cache[key], cutoff)
  {
    ExecNext(acts, k);
    CachedIsOld(acts[..k], key);
  }

  lemma StillThereNext(acts: seq<Action<string>>, k: nat, n: nat, key: string, o: Cb, cutoff: Time)
    requires k < n < |acts| && StillThere(acts, k, n, key, o, cutoff) && acts[n] != Delete(key)
    ensures StillThere(acts, k, n + 1, key, o, cutoff)
  {
    ExecNext(acts, n);
    TouchedNext(acts, k, n, o, cutoff);
    AccessMoves(Exec(Start<string>(), acts[..n]), acts[n], key, o, cutoff);
  }

  lemma {:induction false} AccessSince(acts: seq<Action<string>>, k: nat, n: nat, key: string, cutoff: Time)
    requires k < n <= |acts| && acts[k] == Mark(key, cutoff) && Idle(Exec(Start<string>(), acts[..k]), key, cutoff)
    requires forall j :: k < j < n ==> acts[j] != Delete(key)
    ensures StillThere(acts, k, n, key, Exec(Start<string>(), acts[..k]).cache[key], cutoff)
  {
    if n == k + 1 {
      StillThereFirst(acts, k, key, cutoff);
    } else {
      AccessSince(acts, k, n - 1, key, cutoff);
      StillThereNext(acts, k, n - 1, key, Exec(Start<string>(), acts[..k]).cache[key], cutoff);
    }
  }

  /** The evictor looks at the time of last access and removes the key in two steps. What the second step
      removes is the breaker it looked at, and that has been accessed since the cutoff by then exactly when
      a call that got it in between was the last to touch it. */
  lemma EvictsAccessedExactly(acts: seq<Action<string>>, k: nat, n: nat, key: string, cutoff: Time)
    requires k < n < |acts| && acts[k] == Mark(key, cutoff) && Idle(Exec(Start<string>(), acts[..k]), key, cutoff)
    requires acts[n] == Delete(key) && forall j :: k < j < n ==> acts[j] != Delete(key)
    ensures var o := Exec(Start<string>(), acts[..k]).cache[key];
            var s := Exec(Start<string>(), acts[..n]);
            && key in s.cache && s.cache[key] == o
            && (AccessedSince(s, o, cutoff) <==> TouchedSince(acts, k, n, o, cutoff))
  {
    AccessSince(acts, k, n, key, cutoff);
  }

  // Going one step further.
  ghost predicate Reaches(acts: seq<Action<string>>, s: State<string>) { Exec(Start<string>(), acts) == s }

  lemma Then(acts: seq<Action<string>>, s: State<string>, a: Action<string>)
    requires Reaches(acts, s)
    ensures Reaches(acts + [a], Step(s, a))
  {
    assert (acts + [a])[..|acts|] == acts;
  }

  // Two calls got the breaker of `key`, the second at the time 2 * TTL; then it was evicted, and a third
  // call got another one.
  predicate ReplacedInUse(s: State<string>, key: string) {
    && |s.log| == 4 && s.log[0].Got? && s.log[1] == s.log[0] && s.log[2] == Evicted(key) && s.log[3].Got?
    && s.log[0].obj.key == key == s.log[3].obj.key && s.log[3].obj != s.log[0].obj
    && s.log[0].obj.id in s.access && s.access[s.log[0].obj.id] == 2 * TTL
  }

  /** It does happen: a call between the two steps has its breaker taken out of the map although it was
      used just now, and the next call gets another one. */
  lemma EvictedWhileInUse(key: string)
    ensures exists acts :: ReplacedInUse(Exec(Start<string>(), acts), key)
  {
    var o := Obj(0, key);
    var a: seq<Action<string>> := [];
    var s0 := Start<string>();
    assert Reaches(a, s0);
    Then(a, s0, Load(0, key, 0));
    a := a + [Load(0, key, 0)];
    var s1 := State(map[], map[0 := 0], 1, map[0 := Missed(o)], {}, []);
    assert Reaches(a, s1);
    Then(a, s1, LoadOrStore(0));
    a := a + [LoadOrStore(0)];
    var s2 := State(map[key := o], map[0 := 0], 1, map[], {}, [Got(o)]);
    assert Reaches(a, s2);
    Then(a, s2, Mark(key, TTL));
    a := a + [Mark(key, TTL)];
    var s3 := s2.(marked := {key});
    assert Reaches(a, s3);
    SecondHalf(a, key);
  }

  lemma SecondHalf(before: seq<Action<string>>, key: string)
    requires Reaches(before, State(map[key := Obj(0, key)], map[0 := 0], 1, map[], {key}, [Got(Obj(0, key))]))
    ensures exists acts :: ReplacedInUse(Exec(Start<string>(), acts), key)
  {
    var o := Obj(0, key);
    var s3 := State(map[key := o], map[0 := 0], 1, map[], {key}, [Got(o)]);
    var a := before;
    Then(a, s3, Load(0, key, 2 * TTL));
    a := a + [Load(0, key, 2 * TTL)];
    var s4 := s3.(threads := map[0 := Hit(o, 2 * TTL)], log := [Got(o), Got(o)]);
    assert Reaches(a, s4);
    Then(a, s4, Touch(0));
    a := a + [Touch(0)];
    var s5 := s4.(threads := map[], access := map[0 := 2 * TTL]);
    assert Reaches(a, s5);
    Then(a, s5, Delete(key));
    a := a + [Delete(key)];
    var s6 := s5.(cache := map[], marked := {}, log := [Got(o), Got(o), Evicted(key)]);
    assert Reaches(a, s6);
    LastCall(a, s6, key);
  }

  lemma LastCall(before: seq<Action<string>>, s6: State<string>, key: string)
    requires Reaches(before, s6)
    requires var o := Obj(0, key); s6 == State(map[], map[0 := 2 * TTL], 1, map[], {}, [Got(o), Got(o), Evicted(key)])
    ensures exists acts :: ReplacedInUse(Exec(Start<string>(), acts), key)
  {
    var p := Obj(1, key);
    var a := before;
    Then(a, s6, Load(1, key, 2 * TTL));
    a := a + [Load(1, key, 2 * TTL)];
    var s7 := s6.(threads := map[1 := Missed(p)], access := map[0 := 2 * TTL, 1 := 2 * TTL], made := 2);
    assert Reaches(a, s7);
    Then(a, s7, LoadOrStore(1));
    a := a + [LoadOrStore(1)];
    var s8 := s7.(threads := map[], cache := map[key := p], log := s6.log + [Got(p)]);
    assert Reaches(a, s8);
  }

  // ---- The registry ----

  class Registry {
    var cache: map<string, Cb>
    var access: map<nat, Time>
    var made: nat

    constructor ()
      ensures View() == Start()
    {
      cache, access, made := map[], map[], 0;
    }

    // The state as the machine sees it between calls.
    ghost function View(): State<string>
      reads this
    {
      State(cache, access, made, map[], {}, [])
    }

    ghost predicate Valid()
      reads this
    {
      forall key :: key in cache ==> cache[key].id in access
    }

    /** A call on its own is a load followed by a touch, or by a load-or-store. */
    method GetOrCreateCb(channelType: string, channel: string, now: Time) returns (cb: Cb)
      requires Valid()
      modifies this
      ensures Valid()
      ensures var loaded := Step(old(View()), Load(0, CbKey(channelType, channel), now));
              var n := Step(Step(loaded, Touch(0)), LoadOrStore(0));
              View() == n.(log := []) && n.log == [Got(cb)]
      ensures var key := channelType + ":" + channel;
              && key in cache && cache == old(cache)[key := cb] && access == old(access)[cb.id := now]
              && if key in old(cache) then cb == old(cache)[key] && made == old(made)
                 else cb.id == old(made) && made == old(made) + 1
    {
      var key := CbKey(channelType, channel);
      if key in cache {
        cb := cache[key];
        access := access[cb.id := now];
        assert map[0 := Hit(cb, now)] - {0} == map[];
        return;
      }
      cb := Obj(made, key);
      access, made := access[made := now], made + 1;
      assert map[0 := Missed(cb)] - {0} == map[];
      cache := cache[key := cb];
    }

    /** A pass of the evictor on its own removes exactly the breakers not used for the last hour. */
    method Evict(now: Time)
      requires Valid()
      modifies this`cache
      ensures Valid()
      ensures cache == map key | key in old(cache) && old(access[cache[key].id]) >= now - 3600 :: old(cache)[key]
    {
      var cutoff := now - TTL;
      var left := cache.Keys;
      while left != {}
        invariant left <= cache.Keys <= old(cache).Keys
        invariant forall key :: key in cache ==> cache[key] == old(cache)[key]
        invariant forall key :: key in old(cache) && key !in left ==>
          (key in cache <==> access[old(cache)[key].id] >= cutoff)
        decreases |left|
      {
        var key :| key in left;
        if access[cache[key].id] < cutoff { cache := cache - {key}; }
        left := left - {key};
      }
    }
  }

  class HttpChecker {
    var clients: map<int, Client>
    var made: nat

    constructor ()
      ensures clients == map[] && made == 0 && Valid()
    {
      clients, made := map[], 0;
    }

    ghost predicate Valid()
      reads this
    {
      && (forall t :: t in clients ==> clients[t].key == t && clients[t].id < made)
      && (forall t, u :: t in clients && u in clients && t != u ==> clients[t].id != clients[u].id)
    }

    /** The client of a timeout: the one there is, or a new one with exactly that timeout. */
    method ClientForTimeout(timeoutSecs: int) returns (client: Client)
      requires Valid()
      modifies this
      ensures Valid() && client.key == timeoutSecs
      ensures clients == old(clients)[timeoutSecs := client]
      ensures timeoutSecs in old(clients) ==> client == old(clients)[timeoutSecs] && made == old(made)
      ensures timeoutSecs !in old(clients) ==> client.id == old(made) && made == old(made) + 1
    {
      if timeoutSecs in clients {
        client := clients[timeoutSecs];
        return;
      }
      client := Obj(made, timeoutSecs);
      clients, made := clients[timeoutSecs := client], made + 1;
    }
  }
}
