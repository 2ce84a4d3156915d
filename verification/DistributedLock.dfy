/**
 * RedisLockService: SET NX PX to acquire, an unconditional DEL to release.
 * Callers run between the two steps while others interleave and the key may expire.
 */
module DistributedLock {
  import opened Base
  import opened TtlStore
  import Keys

  type CallId = nat

  /** A caller between acquire and release: its key and when that key was set to expire. */
  datatype Hold = Hold(key: string, deadline: int)

  /**
   * `setter`, `used` and `overran` are history: who set each key last, which calls have begun
   * to hold a lock, and which (key, call) pairs had the key expire while the call was running.
   */
  datatype State = State(
    now: int,
    store: Store<int>,
    running: map<CallId, Hold>,
    setter: map<string, CallId>,
    used: set<CallId>,
    overran: set<(string, CallId)>)

  datatype Event =
    | Acquire(call: CallId, key: string, ttl: Lifetime)
    | Release(call: CallId)
    | Tick(elapsed: nat)

  const INIT := State(0, map[], map[], map[], {}, {})

  function LockKey(key: string): string {
    Keys.Key(Keys.DistributedLock, key)
  }

  /** Keys that are present before the clock moves and gone after it. */
  function Expiring(s: Store<int>, before: int, after: int): set<string> {
    set k | k in s && Live(s[k], before) && !Live(s[k], after)
  }

  /** An event that cannot happen (a reused call id, a release by a caller not running) changes nothing. */
  function Step(s: State, e: Event): State {
    match e
    case Acquire(c, k, ttl) =>
      if c in s.used || Get(s.store, s.now, k).Some? then s
      else s.(
        store := SetPx(s.store, s.now, k, ttl, s.now),
        running := s.running[c := Hold(k, s.now + ttl)],
        setter := s.setter[k := c],
        used := s.used + {c})
    case Release(c) =>
      if c !in s.running then s
      else s.(store := Del(s.store, s.running[c].key), running := s.running - {c})
    case Tick(d) =>
      var expired := Expiring(s.store, s.now, s.now + d);
      s.(now := s.now + d,
         overran := s.overran + set k | k in expired && k in s.setter && s.setter[k] in s.running :: (k, s.setter[k]))
  }

  function Run(es: seq<Event>): State {
    if es == [] then INIT else Step(Run(es[..|es| - 1]), es[|es| - 1])
  }

  /** The callers currently between acquire and release of one key. */
  function Holders(s: State, k: string): set<CallId> {
    set c | c in s.running && s.running[c].key == k
  }

  /** The callers under which that key expired while they were running. */
  function Overruns(s: State, k: string): set<(string, CallId)> {
    set p | p in s.overran && p.0 == k
  }

  predicate Held(s: State, k: string) {
    Get(s.store, s.now, k).Some?
  }

  ghost predicate Inv(s: State) {
    && s.running.Keys <= s.used
    && (forall p :: p in s.overran ==> p.1 in s.used)
    && (forall k :: k in s.store ==> k in s.setter && s.store[k].deadline.Some?)
    && (forall k :: Held(s, k) ==> SetByARunningCall(s, k))
    && (forall k :: |Holders(s, k)| <= |Overruns(s, k)| + if Held(s, k) then 1 else 0)
  }

  /** A present key belongs to a caller that is still running and has not overrun. */
  ghost predicate SetByARunningCall(s: State, k: string) {
    && k in s.setter && s.setter[k] in s.running
    && k in s.store
    && s.running[s.setter[k]].key == k
    && s.store[k].deadline == Some(s.running[s.setter[k]].deadline)
    && (k, s.setter[k]) !in s.overran
  }

  lemma AcquireAddsOneHolder(s: State, c: CallId, k: string, ttl: Lifetime)
    requires s.running.Keys <= s.used && c !in s.used && !Held(s, k)
    ensures |Holders(Step(s, Acquire(c, k, ttl)), k)| == |Holders(s, k)| + 1
    ensures Held(Step(s, Acquire(c, k, ttl)), k)
  {
    assert Holders(Step(s, Acquire(c, k, ttl)), k) == Holders(s, k) + {c};
  }

  lemma AcquireLeavesOtherKeys(s: State, c: CallId, k: string, ttl: Lifetime, k': string)
    requires s.running.Keys <= s.used && c !in s.used && !Held(s, k) && k' != k
    ensures Holders(Step(s, Acquire(c, k, ttl)), k') == Holders(s, k')
    ensures Held(Step(s, Acquire(c, k, ttl)), k') == Held(s, k')
  {
  }

  lemma AcquireKeepsBound(s: State, c: CallId, k: string, ttl: Lifetime, k': string)
    requires Inv(s) && c !in s.used && !Held(s, k)
    ensures
      var t := Step(s, Acquire(c, k, ttl));
      |Holders(t, k')| <= |Overruns(t, k')| + if Held(t, k') then 1 else 0
  {
    assert Overruns(Step(s, Acquire(c, k, ttl)), k') == Overruns(s, k');
    if k' == k {
      AcquireAddsOneHolder(s, c, k, ttl);
    } else {
      AcquireLeavesOtherKeys(s, c, k, ttl, k');
    }
  }

  lemma AcquireKeepsInv(s: State, c: CallId, k: string, ttl: Lifetime)
    requires Inv(s) && c !in s.used && !Held(s, k)
    ensures Inv(Step(s, Acquire(c, k, ttl)))
  {
    var t := Step(s, Acquire(c, k, ttl));
    forall k' ensures |Holders(t, k')| <= |Overruns(t, k')| + if Held(t, k') then 1 else 0 {
      AcquireKeepsBound(s, c, k, ttl, k');
    }
    forall k' | Held(t, k') ensures SetByARunningCall(t, k') {
      if k' != k {
        assert Held(s, k') && SetByARunningCall(s, k');
      }
    }
  }

  lemma ReleaseKeepsInv(s: State, c: CallId)
    requires Inv(s) && c in s.running
    ensures Inv(Step(s, Release(c)))
  {
    var t := Step(s, Release(c));
    var k := s.running[c].key;
    forall k' ensures |Holders(t, k')| <= |Overruns(t, k')| + if Held(t, k') then 1 else 0 {
      assert Overruns(t, k') == Overruns(s, k');
      if k' == k {
        assert Holders(t, k) == Holders(s, k) - {c};
      } else {
        assert Holders(t, k') == Holders(s, k');
        assert Held(t, k') == Held(s, k');
      }
    }
    forall k' | Held(t, k') ensures SetByARunningCall(t, k') {
      assert Held(s, k') && SetByARunningCall(s, k');
    }
  }

  lemma TickKeepsInv(s: State, d: nat)
    requires Inv(s)
    ensures Inv(Step(s, Tick(d)))
  {
    var t := Step(s, Tick(d));
    forall k ensures |Holders(t, k)| <= |Overruns(t, k)| + if Held(t, k) then 1 else 0 {
      assert Holders(t, k) == Holders(s, k);
      if Held(s, k) && !Held(t, k) {
        assert SetByARunningCall(s, k);
        assert k in Expiring(s.store, s.now, t.now);
        assert Overruns(t, k) == Overruns(s, k) + {(k, s.setter[k])};
      } else {
        assert Overruns(s, k) <= Overruns(t, k);
        SubsetSize(Overruns(s, k), Overruns(t, k));
      }
    }
    forall k | Held(t, k) ensures SetByARunningCall(t, k) {
      assert Held(s, k) && SetByARunningCall(s, k);
      assert k !in Expiring(s.store, s.now, t.now);
    }
  }

  lemma StepKeepsInv(s: State, e: Event)
    requires Inv(s)
    ensures Inv(Step(s, e))
  {
    match e
    case Acquire(c, k, ttl) =>
      if c !in s.used && !Held(s, k) {
        AcquireKeepsInv(s, c, k, ttl);
      }
    case Release(c) =>
      if c in s.running {
        ReleaseKeepsInv(s, c);
      }
    case Tick(d) =>
      TickKeepsInv(s, d);
  }

  lemma SubsetSize<T>(a: set<T>, b: set<T>)
    requires a <= b
    ensures |a| <= |b|
  {
    assert b == a + (b - a);
  }

  lemma {:induction false} RunKeepsInv(es: seq<Event>)
    ensures Inv(Run(es))
  {
    if es == [] {
    } else {
      RunKeepsInv(es[..|es| - 1]);
      StepKeepsInv(Run(es[..|es| - 1]), es[|es| - 1]);
    }
  }

  /** Any interleaving of any number of callers: concurrency is bounded by the overruns so far. */
  lemma HoldersBoundedByOverruns(es: seq<Event>, k: string)
    ensures |Holders(Run(es), k)| <= 1 + |Overruns(Run(es), k)|
  {
    RunKeepsInv(es);
  }

  /** Without an overrun of this key, two holders are the same caller. */
  lemma MutualExclusion(es: seq<Event>, a: CallId, b: CallId)
    requires a in Run(es).running && b in Run(es).running
    requires Run(es).running[a].key == Run(es).running[b].key
    requires Overruns(Run(es), Run(es).running[a].key) == {}
    ensures a == b
  {
    var s := Run(es);
    var k := s.running[a].key;
    HoldersBoundedByOverruns(es, k);
    if a != b {
      SubsetSize({a, b}, Holders(s, k));
    }
  }

  /** Every caller of this key, at every moment it runs, is still within the lifetime it asked for. */
  ghost predicate Timely(es: seq<Event>, k: string) {
    forall n :: 0 <= n <= |es| ==> WithinLifetime(Run(es[..n]), k)
  }

  ghost predicate WithinLifetime(s: State, k: string) {
    forall c :: c in s.running && s.running[c].key == k ==> s.now <= s.running[c].deadline
  }

  lemma TimelyPrefix(es: seq<Event>, k: string, n: nat)
    requires Timely(es, k) && n <= |es|
    ensures Timely(es[..n], k)
  {
    forall m | 0 <= m <= n ensures WithinLifetime(Run(es[..n][..m]), k) {
      assert es[..n][..m] == es[..m];
    }
  }

  /** The clock overruns no caller of a key that is within its lifetime afterwards. */
  lemma TickInTimeOverrunsNobody(s: State, d: nat, k: string)
    requires Inv(s) && WithinLifetime(Step(s, Tick(d)), k)
    ensures Overruns(Step(s, Tick(d)), k) == Overruns(s, k)
  {
    assert k in Expiring(s.store, s.now, s.now + d) ==> Held(s, k);
    assert Held(s, k) ==> SetByARunningCall(s, k);
  }

  lemma {:induction false} TimelyKeysNeverOverrun(es: seq<Event>, k: string)
    requires Timely(es, k)
    ensures Overruns(Run(es), k) == {}
  {
    if es == [] {
    } else {
      var init, last := es[..|es| - 1], es[|es| - 1];
      TimelyPrefix(es, k, |init|);
      TimelyKeysNeverOverrun(init, k);
      RunKeepsInv(init);
      assert es[..|es|] == es && WithinLifetime(Run(es), k);
      if last.Tick? {
        TickInTimeOverrunsNobody(Run(init), last.elapsed, k);
      } else {
        assert Run(es).overran == Run(init).overran;
      }
    }
  }

  /** A condition each caller of the key can keep: release within the lifetime, and the lock excludes. */
  lemma TimelyCallersExclude(es: seq<Event>, a: CallId, b: CallId)
    requires a in Run(es).running && b in Run(es).running
    requires Run(es).running[a].key == Run(es).running[b].key
    requires Timely(es, Run(es).running[a].key)
    ensures a == b
  {
    TimelyKeysNeverOverrun(es, Run(es).running[a].key);
    MutualExclusion(es, a, b);
  }

  /** No moment of the run lets one more call become a second holder of the key. */
  ghost predicate AlwaysExcludes(es: seq<Event>, k: string) {
    forall n, d, ttl: Lifetime :: 0 <= n <= |es| ==> |Holders(Run(es[..n] + [Acquire(d, k, ttl)]), k)| <= 1
  }

  lemma {:induction false} SomeCallIsFresh(used: set<CallId>) returns (d: CallId)
    ensures d !in used && forall c :: c in used ==> c < d
  {
    if c :| c in used {
      var e := SomeCallIsFresh(used - {c});
      d := e + c + 1;
      assert forall x :: x in used ==> x == c || x in used - {c};
    } else {
      d := 0;
      assert forall c :: c !in used;
    }
  }

  /** Beside a caller past its lifetime, a fresh call is let in, or another already is. */
  lemma LateCallersAreJoined(es: seq<Event>, c: CallId, d: CallId, ttl: Lifetime)
    requires c in Run(es).running && d !in Run(es).used
    ensures
      var k := Run(es).running[c].key;
      Run(es).running[c].deadline < Run(es).now ==> |Holders(Run(es + [Acquire(d, k, ttl)]), k)| >= 2
  {
    RunKeepsInv(es);
    var s := Run(es);
    var k := s.running[c].key;
    RunOneMore(es, Acquire(d, k, ttl));
    if s.running[c].deadline < s.now {
      assert Held(s, k) ==> SetByARunningCall(s, k);
      var other := if Held(s, k) then s.setter[k] else d;
      assert {c, other} <= Holders(Step(s, Acquire(d, k, ttl)), k) && c != other;
      SubsetSize({c, other}, Holders(Step(s, Acquire(d, k, ttl)), k));
    }
  }

  /**
   * Exactly when the lock excludes: a run lets nobody become a second holder of a key, at any moment,
   * if and only if every caller of that key releases it within the lifetime it asked for.
   */
  lemma ExcludesExactlyWhenTimely(es: seq<Event>, k: string)
    ensures AlwaysExcludes(es, k) <==> Timely(es, k)
  {
    if Timely(es, k) {
      forall n, d, ttl: Lifetime | 0 <= n <= |es| ensures |Holders(Run(es[..n] + [Acquire(d, k, ttl)]), k)| <= 1 {
        TimelyPrefix(es, k, n);
        TimelyKeysNeverOverrun(es[..n], k);
        RunOneMore(es[..n], Acquire(d, k, ttl));
        HoldersBoundedByOverruns(es[..n] + [Acquire(d, k, ttl)], k);
        assert Overruns(Run(es[..n] + [Acquire(d, k, ttl)]), k) == Overruns(Run(es[..n]), k);
      }
    }
    if AlwaysExcludes(es, k) {
      forall n | 0 <= n <= |es| ensures WithinLifetime(Run(es[..n]), k) {
        var s := Run(es[..n]);
        forall c | c in s.running && s.running[c].key == k ensures s.now <= s.running[c].deadline {
          var d := SomeCallIsFresh(s.used);
          assert |Holders(Run(es[..n] + [Acquire(d, k, 1)]), k)| <= 1;
          LateCallersAreJoined(es[..n], c, d, 1);
        }
      }
    }
  }

  /**
   * The release deletes whatever entry is there. One overrunning caller (0) lets two later,
   * punctual callers (1 and 2) hold the lock together.
   */
  lemma OneOverrunHurtsPunctualCallers(k: string)
    ensures
      var s := Run([Acquire(0, k, 1), Tick(2), Acquire(1, k, 9), Release(0), Acquire(2, k, 9)]);
      && Holders(s, k) == {1, 2}
      && Overruns(s, k) == {(k, 0)}
      && WithinLifetime(s, k)
  {
    assert Run([]) == INIT;
    hide Run;
    var e1 := [Acquire(0, k, 1)];
    var e2 := e1 + [Tick(2)];
    var e3 := e2 + [Acquire(1, k, 9)];
    var e4 := e3 + [Release(0)];
    assert Run(e1) == State(0, map[k := Entry(0, Some(1))], map[0 := Hold(k, 1)], map[k := 0], {0}, {}) by {
      RunOneMore([], Acquire(0, k, 1));
      assert [] + e1 == e1;
    }
    assert Run(e2).overran == {(k, 0)} && Run(e2) == Run(e1).(now := 2, overran := {(k, 0)}) by {
      RunOneMore(e1, Tick(2));
      assert Expiring(Run(e1).store, 0, 2) == {k};
    }
    Overtaken(Run(e2), k);
    RunOneMore(e2, Acquire(1, k, 9));
    RunOneMore(e3, Release(0));
    RunOneMore(e4, Acquire(2, k, 9));
    assert e4 + [Acquire(2, k, 9)]
        == [Acquire(0, k, 1), Tick(2), Acquire(1, k, 9), Release(0), Acquire(2, k, 9)];
  }

  /** Once call 0's key has expired, 1 acquires, 0 deletes 1's key, and 2 acquires beside 1. */
  lemma Overtaken(s: State, k: string)
    requires s == State(2, map[k := Entry(0, Some(1))], map[0 := Hold(k, 1)], map[k := 0], {0}, {(k, 0)})
    ensures
      var t := Step(Step(Step(s, Acquire(1, k, 9)), Release(0)), Acquire(2, k, 9));
      Holders(t, k) == {1, 2} && Overruns(t, k) == {(k, 0)} && WithinLifetime(t, k)
  {
    var s1 := Step(s, Acquire(1, k, 9));
    assert s1.running == map[0 := Hold(k, 1), 1 := Hold(k, 11)];
    var s2 := Step(s1, Release(0));
    assert s2.running == map[1 := Hold(k, 11)] && s2.store == map[];
    var t := Step(s2, Acquire(2, k, 9));
    assert t.running == map[1 := Hold(k, 11), 2 := Hold(k, 11)];
  }

  lemma RunOneMore(es: seq<Event>, e: Event)
    ensures Run(es + [e]) == Step(Run(es), e)
  {
    assert (es + [e])[..|es|] == es;
  }

  /** n callers, each overrun by the next. */
  function Staircase(k: string, n: nat): seq<Event> {
    if n == 0 then [Acquire(0, k, 1)] else Staircase(k, n - 1) + [Tick(2)] + [Acquire(n, k, 1)]
  }

  lemma ClimbOneStep(s: State, k: string, n: nat)
    requires n > 0 && StaircaseState(s, k, n - 1)
    ensures StaircaseState(Step(Step(s, Tick(2)), Acquire(n, k, 1)), k, n)
  {
    var mid := Step(s, Tick(2));
    assert Expiring(s.store, s.now, s.now + 2) == {k};
    assert mid.overran == s.overran + {(k, n - 1)};
    var t := Step(mid, Acquire(n, k, 1));
    assert t.overran == mid.overran && t.used == s.used + {n};
  }

  lemma {:induction false} ClimbStaircase(k: string, n: nat)
    ensures StaircaseState(Run(Staircase(k, n)), k, n)
  {
    if n == 0 {
      assert Staircase(k, 0)[..0] == [];
    } else {
      ClimbStaircase(k, n - 1);
      var below := Staircase(k, n - 1);
      RunOneMore(below, Tick(2));
      RunOneMore(below + [Tick(2)], Acquire(n, k, 1));
      ClimbOneStep(Run(below), k, n);
    }
  }

  /** The bound is attained: for every n some run has n overruns and n + 1 holders. */
  lemma BoundIsTight(k: string, n: nat)
    ensures |Overruns(Run(Staircase(k, n)), k)| == n
    ensures |Holders(Run(Staircase(k, n)), k)| == n + 1
  {
    ClimbStaircase(k, n);
    var s := Run(Staircase(k, n));
    RangeSize(Holders(s, k), 0, n + 1);
    PairSize(Overruns(s, k), k, n);
  }

  lemma {:induction false} PairSize(pairs: set<(string, CallId)>, k: string, n: nat)
    requires forall p :: p in pairs <==> p.0 == k && 0 <= p.1 < n
    ensures |pairs| == n
  {
    if n == 0 {
      assert pairs == {};
    } else {
      PairSize(pairs - {(k, n - 1)}, k, n - 1);
      assert (k, n - 1) in pairs;
    }
  }

  ghost predicate StaircaseState(s: State, k: string, n: nat) {
    && (forall c :: c in s.used <==> 0 <= c <= n)
    && (forall c :: c in s.running <==> 0 <= c <= n)
    && (forall c :: c in s.running ==> s.running[c].key == k)
    && s.store.Keys == {k}
    && s.store[k].deadline == Some(s.now + 1)
    && k in s.setter && s.setter[k] == n
    && (forall p :: p in s.overran <==> p.0 == k && p.1 < n)
  }

  /** A call without interruption leaves the lock free and touches no other key. */
  lemma UninterruptedCall(es: seq<Event>, c: CallId, k: string, ttl: Lifetime)
    requires c !in Run(es).used && !Held(Run(es), k)
    ensures
      var s := Run(es);
      var t := Step(s, Acquire(c, k, ttl));
      var u := Step(t, Release(c));
      c in Holders(t, k) && Held(t, k) && u.store == Del(s.store, k) && u.running == s.running
  {
    RunKeepsInv(es);
    var s := Run(es);
    assert s.running[c := Hold(k, s.now + ttl)] - {c} == s.running;
  }

  // ----- The service -----

  /** Every lock has its own entry. */
  lemma LocksHaveTheirOwnKeys(a: string, b: string)
    ensures LockKey(a) == LockKey(b) <==> a == b
  {
    Keys.KeysNeverCollide(Keys.DistributedLock, a, Keys.DistributedLock, b);
  }

  lemma OtherLocksStay(key: string)
    ensures forall k :: k != key ==> LockKey(k) != LockKey(key)
  {
    forall k: string | k != key ensures LockKey(k) != LockKey(key) {
      LocksHaveTheirOwnKeys(k, key);
    }
  }

  datatype Outcome<+T> = Returned(value: T) | Threw(message: string)

  /** withLock answers null without running the action, or passes the action's outcome on. */
  datatype LockReply<+T> = NotAcquired | Ran(outcome: Outcome<T>)

  class RedisLockService {
    const redis: RedisService<int>

    constructor (redis: RedisService<int>)
      ensures this.redis == redis
    {
      this.redis := redis;
    }

    method AcquireLock(now: int, key: string, ttl: Lifetime) returns (acquired: bool)
      modifies redis
      ensures acquired == Get(old(redis.entries), now, LockKey(key)).None?
      ensures redis.entries
           == if acquired then SetPx(old(redis.entries), now, LockKey(key), ttl, now) else old(redis.entries)
      ensures forall k :: k != key ==> Slot(redis.entries, LockKey(k)) == Slot(old(redis.entries), LockKey(k))
      ensures acquired ==> Slot(redis.entries, LockKey(key)) == Some(Entry(now, Some(now + ttl)))
    {
      OtherLocksStay(key);
      acquired := redis.SetNxPx(now, LockKey(key), ttl, now);
    }

    method ReleaseLock(key: string)
      modifies redis
      ensures redis.entries == Del(old(redis.entries), LockKey(key))
      ensures forall k :: k != key ==> Slot(redis.entries, LockKey(k)) == Slot(old(redis.entries), LockKey(k))
      ensures Slot(redis.entries, LockKey(key)).None?
    {
      OtherLocksStay(key);
      redis.DelKey(LockKey(key));
    }

    /**
     * The action is any function of the store it finds, the lock's own entry included: what it, and
     * whatever runs meanwhile, leaves in the store, and how it ends. The finally block frees the key
     * whether the action returned or threw; a refused call runs nothing and touches nothing.
     */
    method WithLock<T>(now: int, key: string, ttl: Lifetime, action: Store<int> -> (Store<int>, Outcome<T>))
      returns (r: LockReply<T>)
      modifies redis
      ensures r.NotAcquired? <==> Get(old(redis.entries), now, LockKey(key)).Some?
      ensures r.NotAcquired? ==> redis.entries == old(redis.entries)
      ensures r.Ran? ==>
        var (left, outcome) := action(old(redis.entries)[LockKey(key) := Entry(now, Some(now + ttl))]);
        r.outcome == outcome && redis.entries == left - {LockKey(key)}
    {
      var acquired := AcquireLock(now, key, ttl);
      if !acquired {
        return NotAcquired;
      }
      var (left, outcome) := action(redis.entries);
      redis.entries := left;
      r := Ran(outcome);
      ReleaseLock(key);
    }
  }
}
