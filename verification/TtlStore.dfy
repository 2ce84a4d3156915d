/** The keyed store with expiry that every handler shares (RedisService over Redis). */
module TtlStore {
  import opened Base

  /** A stored value; without a deadline the key never expires. Times are in milliseconds. */
  datatype Entry<+V> = Entry(value: V, deadline: Option<int>)

  type Store<V> = map<string, Entry<V>>

  /** Redis keeps a key while the current time is at most its deadline. */
  predicate Live<V>(e: Entry<V>, now: int) {
    e.deadline.Some? ==> now <= e.deadline.value
  }

  /** What a client can see of one key's slot. */
  function Peek<V>(slot: Option<Entry<V>>, now: int): Option<V> {
    if slot.Some? && Live(slot.value, now) then Some(slot.value.value) else None
  }

  function Slot<V>(s: Store<V>, key: string): Option<Entry<V>> {
    if key in s then Some(s[key]) else None
  }

  function Get<V>(s: Store<V>, now: int, key: string): Option<V> {
    Peek(Slot(s, key), now)
  }

  function SetPx<V>(s: Store<V>, now: int, key: string, ms: Lifetime, v: V): Store<V> {
    s[key := Entry(v, Some(now + ms))]
  }

  function Setex<V>(s: Store<V>, now: int, key: string, seconds: Lifetime, v: V): Store<V> {
    SetPx(s, now, key, MS * seconds, v)
  }

  function Del<V>(s: Store<V>, key: string): Store<V> {
    s - {key}
  }

  /** INCR on one slot: an absent or expired counter restarts at 1 without a deadline. */
  function Bump(slot: Option<Entry<int>>, now: int): Entry<int> {
    if slot.Some? && Live(slot.value, now)
    then Entry(slot.value.value + 1, slot.value.deadline)
    else Entry(1, None)
  }

  function Incr(s: Store<int>, now: int, key: string): Store<int> {
    s[key := Bump(Slot(s, key), now)]
  }

  /** EXPIRE changes the deadline of a present key only. */
  function Expire<V>(s: Store<V>, now: int, key: string, seconds: Lifetime): Store<V> {
    if key in s && Live(s[key], now)
    then s[key := Entry(s[key].value, Some(now + MS * seconds))]
    else s
  }

  /** Active expiry: the server drops entries whose deadline has passed. */
  function Purge<V>(s: Store<V>, now: int): Store<V> {
    map k | k in s && Live(s[k], now) :: s[k]
  }

  // ----- Reclaiming expired entries can never be observed -----

  datatype Command =
    | CGet(key: string)
    | CSetex(key: string, seconds: Lifetime, v: int)
    | CSetNxPx(key: string, ms: Lifetime, v: int)
    | CDel(key: string)
    | CIncr(key: string)
    | CExpire(key: string, seconds: Lifetime)
    | CPurge
    | CWait(pause: nat)

  datatype Server = Server(now: int, store: Store<int>)

  /** One command and its reply. A purge replies nothing, like a wait. */
  function Execute(sv: Server, c: Command): (Server, Option<int>) {
    match c
    case CGet(k) => (sv, Get(sv.store, sv.now, k))
    case CSetex(k, n, v) => (sv.(store := Setex(sv.store, sv.now, k, n, v)), None)
    case CSetNxPx(k, ms, v) =>
      if Get(sv.store, sv.now, k).Some? then (sv, None)
      else (sv.(store := SetPx(sv.store, sv.now, k, ms, v)), Some(1))
    case CDel(k) =>
      (sv.(store := Del(sv.store, k)), Some(if Get(sv.store, sv.now, k).Some? then 1 else 0))
    case CIncr(k) =>
      var s := Incr(sv.store, sv.now, k);
      (sv.(store := s), Some(s[k].value))
    case CExpire(k, n) =>
      (sv.(store := Expire(sv.store, sv.now, k, n)), Some(if Get(sv.store, sv.now, k).Some? then 1 else 0))
    case CPurge => (sv.(store := Purge(sv.store, sv.now)), None)
    case CWait(ms) => (sv.(now := sv.now + ms), None)
  }

  function Replies(sv: Server, cs: seq<Command>): seq<Option<int>>
    decreases |cs|
  {
    if cs == [] then []
    else
      var (next, reply) := Execute(sv, cs[0]);
      (if cs[0].CPurge? then [] else [reply]) + Replies(next, cs[1..])
  }

  function WithoutPurges(cs: seq<Command>): seq<Command> {
    if cs == [] then []
    else (if cs[0].CPurge? then [] else [cs[0]]) + WithoutPurges(cs[1..])
  }

  /** Same clock and same present entries. */
  ghost predicate Alike(a: Server, b: Server) {
    && a.now == b.now
    && (forall k :: k in a.store && Live(a.store[k], a.now) ==> k in b.store && b.store[k] == a.store[k])
    && (forall k :: k in b.store && Live(b.store[k], b.now) ==> k in a.store && a.store[k] == b.store[k])
  }

  lemma ExecuteAlike(a: Server, b: Server, c: Command)
    requires Alike(a, b)
    ensures Alike(Execute(a, c).0, Execute(b, c).0)
    ensures Execute(a, c).1 == Execute(b, c).1
  {
  }

  lemma {:induction false} RepliesAlike(a: Server, b: Server, cs: seq<Command>)
    requires Alike(a, b)
    ensures Replies(a, cs) == Replies(b, WithoutPurges(cs))
    decreases |cs|
  {
    if cs == [] {
    } else {
      var rest := WithoutPurges(cs[1..]);
      if cs[0].CPurge? {
        assert Alike(Execute(a, cs[0]).0, b);
        RepliesAlike(Execute(a, cs[0]).0, b, cs[1..]);
        assert WithoutPurges(cs) == rest;
      } else {
        ExecuteAlike(a, b, cs[0]);
        RepliesAlike(Execute(a, cs[0]).0, Execute(b, cs[0]).0, cs[1..]);
        assert ([cs[0]] + rest)[1..] == rest;
      }
    }
  }

  /** However often the server reclaims expired keys, clients get the same replies as if it never did. */
  lemma PurgingIsUnobservable(sv: Server, cs: seq<Command>)
    ensures Replies(sv, cs) == Replies(sv, WithoutPurges(cs))
  {
    RepliesAlike(sv, sv, cs);
  }

  // ----- The service object -----

  class RedisService<V> {
    var entries: Store<V>

    constructor ()
      ensures entries == map[]
    {
      entries := map[];
    }

    method GetKey(now: int, key: string) returns (v: Option<V>)
      ensures v == Get(entries, now, key)
    {
      if key in entries && Live(entries[key], now) {
        return Some(entries[key].value);
      }
      return None;
    }

    method SetexKey(now: int, key: string, seconds: Lifetime, v: V)
      modifies this
      ensures entries == Setex(old(entries), now, key, seconds, v)
    {
      entries := entries[key := Entry(v, Some(now + MS * seconds))];
    }

    /** SET key v PX ms NX */
    method SetNxPx(now: int, key: string, ms: Lifetime, v: V) returns (ok: bool)
      modifies this
      ensures ok == Get(old(entries), now, key).None?
      ensures entries == if ok then SetPx(old(entries), now, key, ms, v) else old(entries)
    {
      var current := GetKey(now, key);
      ok := current.None?;
      if ok {
        entries := entries[key := Entry(v, Some(now + ms))];
      }
    }

    method DelKey(key: string)
      modifies this
      ensures entries == Del(old(entries), key)
    {
      entries := entries - {key};
    }

    method ExpireKey(now: int, key: string, seconds: Lifetime)
      modifies this
      ensures entries == Expire(old(entries), now, key, seconds)
    {
      if key in entries && Live(entries[key], now) {
        entries := entries[key := Entry(entries[key].value, Some(now + MS * seconds))];
      }
    }
  }

  /** INCR, which only integer-valued keys support. */
  method IncrKey(redis: RedisService<int>, now: int, key: string) returns (n: int)
    modifies redis
    ensures redis.entries == Incr(old(redis.entries), now, key)
    ensures n == redis.entries[key].value
  {
    var current := redis.GetKey(now, key);
    if current.Some? {
      n := current.value + 1;
      redis.entries := redis.entries[key := Entry(n, redis.entries[key].deadline)];
    } else {
      n := 1;
      redis.entries := redis.entries[key := Entry(1, None)];
    }
  }
}
