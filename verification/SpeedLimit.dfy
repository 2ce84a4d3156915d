/**
 * The 300 s cache of a device's speed limit (TelemetryConsumer.checkSpeedViolation), one device.
 * A check looks the cache up; on a miss it reads the table and then stores the value, and limits
 * change and other checks run between any two of these steps.
 */
module SpeedLimit {
  import opened Base
  import opened TtlStore

  const LIMIT_CACHE_SECONDS: Lifetime := 300
  const FRESH := MS * LIMIT_CACHE_SECONDS

  type CheckId = nat

  /** `device.speedLimitKmh || 0` */
  function Effective(limit: Option<real>): real {
    if limit.Some? then limit.value else 0.0
  }

  /** `!speedLimitKmh || speed <= speedLimitKmh` means no alert, as does a speed of zero or below. */
  predicate Exceeds(speed: real, limit: real) {
    speed > 0.0 && limit != 0.0 && speed > limit
  }

  /** Nobody is alerted at the limit, below it, standing, or without a limit; and driving faster never helps. */
  lemma OnlyFasterExceeds(speed: real, faster: real, limit: real)
    requires speed <= faster
    ensures Exceeds(speed, limit) ==> limit < speed && Exceeds(faster, limit)
    ensures !Exceeds(limit, limit) && !Exceeds(0.0, limit) && !Exceeds(speed, Effective(None))
    ensures 0.0 < limit < faster ==> Exceeds(faster, limit)
  {
  }

  datatype Change = Change(since: int, limit: real)

  /** A check that missed the cache, before and after its read of the table. */
  datatype Filling = Missed | Fetched(limit: real, readAt: int)

  /** A limit that a check went on with: when, and when its value was read and put in the cache. */
  datatype Use = Use(at: int, limit: real, readAt: int, setAt: int)

  /** `changes` (all limits so far), `cachedFrom` (the cached value's origin) and `uses` are history. */
  datatype State = State(
    now: int,
    changes: seq<Change>,
    slot: Option<Entry<real>>,
    cachedFrom: Use,
    filling: map<CheckId, Filling>,
    uses: seq<Use>)

  datatype Event =
    | ChangeLimit(limit: Option<real>)
    | Lookup(check: CheckId)
    | ReadTable(check: CheckId)
    | StoreLimit(check: CheckId)
    | Tick(elapsed: nat)

  function InitialState(limit: Option<real>): State {
    State(0, [Change(0, Effective(limit))], None, Use(0, 0.0, 0, 0), map[], [])
  }

  function CurrentLimit(s: State): real
    requires s.changes != []
  {
    s.changes[|s.changes| - 1].limit
  }

  function Step(s: State, e: Event): State
    requires s.changes != []
  {
    match e
    case Tick(d) => s.(now := s.now + d)
    case ChangeLimit(l) => s.(changes := s.changes + [Change(s.now, Effective(l))])
    case Lookup(c) =>
      (match Peek(s.slot, s.now)
       case Some(v) => s.(uses := s.uses + [s.cachedFrom.(at := s.now, limit := v)])
       case None => if c in s.filling then s else s.(filling := s.filling[c := Missed]))
    case ReadTable(c) =>
      if c !in s.filling || s.filling[c].Fetched? then s
      else s.(filling := s.filling[c := Fetched(CurrentLimit(s), s.now)])
    case StoreLimit(c) =>
      if c !in s.filling || s.filling[c].Missed? then s
      else
        var f := s.filling[c];
        var use := Use(s.now, f.limit, f.readAt, s.now);
        s.(filling := s.filling - {c},
           slot := Some(Entry(f.limit, Some(s.now + FRESH))),
           cachedFrom := use,
           uses := s.uses + [use])
  }

  function Run(limit: Option<real>, es: seq<Event>): (s: State)
    ensures s.changes != []
  {
    if es == [] then InitialState(limit) else Step(Run(limit, es[..|es| - 1]), es[|es| - 1])
  }

  /** The device had limit v at time t (both values count at the moment of a change). */
  ghost predicate HadAt(changes: seq<Change>, t: int, v: real) {
    exists i :: 0 <= i < |changes| && InForce(changes, i, t) && changes[i].limit == v
  }

  ghost predicate InForce(changes: seq<Change>, i: int, t: int)
    requires 0 <= i < |changes|
  {
    changes[i].since <= t && (i + 1 < |changes| ==> t <= changes[i + 1].since)
  }

  ghost predicate UseInv(s: State, u: Use) {
    && HadAt(s.changes, u.readAt, u.limit)
    && u.readAt <= u.setAt <= u.at <= u.setAt + FRESH
    && u.at <= s.now
  }

  ghost predicate FillingInv(s: State, f: Filling) {
    f.Fetched? ==> f.readAt <= s.now && HadAt(s.changes, f.readAt, f.limit)
  }

  ghost predicate Inv(s: State) {
    && s.changes != []
    && s.changes[|s.changes| - 1].since <= s.now
    && (forall c :: c in s.filling ==> FillingInv(s, s.filling[c]))
    && (forall i :: 0 <= i < |s.uses| ==> UseInv(s, s.uses[i]))
    && (s.slot.Some? ==>
          && s.slot.value == Entry(s.cachedFrom.limit, Some(s.cachedFrom.setAt + FRESH))
          && UseInv(s, s.cachedFrom))
  }

  /** What was in force stays in force at past times when the limit changes now. */
  lemma HadAtStays(changes: seq<Change>, next: Change, t: int, v: real)
    requires HadAt(changes, t, v) && t <= next.since
    ensures HadAt(changes + [next], t, v)
  {
    var i :| 0 <= i < |changes| && InForce(changes, i, t) && changes[i].limit == v;
    assert InForce(changes + [next], i, t);
  }

  lemma ChangeKeepsInv(s: State, limit: Option<real>)
    requires Inv(s)
    ensures Inv(Step(s, ChangeLimit(limit)))
  {
    var t := Step(s, ChangeLimit(limit));
    var next := Change(s.now, Effective(limit));
    forall c | c in t.filling ensures FillingInv(t, t.filling[c]) {
      assert FillingInv(s, s.filling[c]);
      if t.filling[c].Fetched? {
        HadAtStays(s.changes, next, t.filling[c].readAt, t.filling[c].limit);
      }
    }
    forall i | 0 <= i < |t.uses| ensures UseInv(t, t.uses[i]) {
      HadAtStays(s.changes, next, s.uses[i].readAt, s.uses[i].limit);
    }
    if s.slot.Some? {
      HadAtStays(s.changes, next, s.cachedFrom.readAt, s.cachedFrom.limit);
    }
  }

  lemma StepKeepsInv(s: State, e: Event)
    requires Inv(s)
    ensures Inv(Step(s, e))
  {
    if e.ChangeLimit? {
      ChangeKeepsInv(s, e.limit);
    } else {
      var t := Step(s, e);
      forall c | c in t.filling ensures FillingInv(t, t.filling[c]) {
        if c in s.filling {
          assert FillingInv(s, s.filling[c]);
        }
        if e.ReadTable? && c == e.check {
          assert InForce(s.changes, |s.changes| - 1, s.now);
        }
      }
      forall i | 0 <= i < |t.uses| ensures UseInv(t, t.uses[i]) {
        if i < |s.uses| {
          assert UseInv(s, s.uses[i]);
        }
      }
    }
  }

  lemma {:induction false} RunKeepsInv(limit: Option<real>, es: seq<Event>)
    ensures Inv(Run(limit, es))
  {
    if es == [] {
      assert InForce(InitialState(limit).changes, 0, 0);
    } else {
      RunKeepsInv(limit, es[..|es| - 1]);
      StepKeepsInv(Run(limit, es[..|es| - 1]), es[|es| - 1]);
    }
  }

  /**
   * In every interleaving: the limit a check goes on with was the device's limit when it was read,
   * and it is used at most 300 s after it was put in the cache.
   */
  lemma UsedLimitWasReal(limit: Option<real>, es: seq<Event>, n: nat)
    requires n < |Run(limit, es).uses|
    ensures
      var u := Run(limit, es).uses[n];
      HadAt(Run(limit, es).changes, u.readAt, u.limit) && u.readAt <= u.setAt <= u.at <= u.setAt + 300000
  {
    RunKeepsInv(limit, es);
    assert UseInv(Run(limit, es), Run(limit, es).uses[n]);
  }

  /** The limit was the same throughout the window. */
  ghost predicate Unchanged(changes: seq<Change>, lo: int, hi: int, v: real) {
    forall t, w :: lo <= t <= hi && HadAt(changes, t, w) ==> w == v
  }

  /**
   * If filling the cache took at most `delay` (0 when a check runs uninterrupted) and the limit did
   * not change during the last 300 s plus that delay, the cached decision is the uncached one.
   */
  lemma CachedDecisionIsRight(limit: Option<real>, es: seq<Event>, n: nat, delay: nat, v: real, speed: real)
    requires n < |Run(limit, es).uses|
    requires
      var u := Run(limit, es).uses[n];
      && u.setAt - u.readAt <= delay
      && Unchanged(Run(limit, es).changes, u.at - 300000 - delay, u.at, v)
    ensures Exceeds(speed, Run(limit, es).uses[n].limit) <==> 0.0 < speed && v != 0.0 && v < speed
  {
    UsedLimitWasReal(limit, es, n);
  }

  /** A check without interruption either uses the cached value or caches the current one from now on. */
  lemma UninterruptedCheck(limit: Option<real>, es: seq<Event>, c: CheckId)
    requires c !in Run(limit, es).filling
    ensures
      var s := Run(limit, es);
      var t := Step(s, Lookup(c));
      var u := Step(Step(t, ReadTable(c)), StoreLimit(c));
      match Peek(s.slot, s.now)
      case Some(v) => t.slot == s.slot && |t.uses| == |s.uses| + 1 && t.uses[|s.uses|].limit == v
      case None =>
        && u.slot == Some(Entry(CurrentLimit(s), Some(s.now + FRESH)))
        && u.uses == s.uses + [Use(s.now, CurrentLimit(s), s.now, s.now)]
        && u.filling == s.filling
  {
    var s := Run(limit, es);
    if Peek(s.slot, s.now).None? {
      var t := Step(s, Lookup(c));
      var r := Step(t, ReadTable(c));
      assert r.filling[c] == Fetched(CurrentLimit(s), s.now);
      assert r.filling - {c} == s.filling;
    }
  }
}
