/**
 * Alert cooldowns: get the cooldown key, create the alert, then set the key. Batches start their
 * checks without awaiting them, so the three steps of different checks interleave.
 */
module Cooldown {
  import opened Base
  import opened TtlStore

  type CheckId = nat

  /** A step's wall-clock time and its position in the order of all steps. */
  datatype Stamp = Stamp(at: int, seqNo: nat)

  /** A check whose get found no cooldown: its get step, then its create and setex steps if they ran. */
  datatype Check = Check(key: string, got: Stamp, alerted: Option<Stamp>, settled: Option<Stamp>)

  datatype State = State(now: int, seqNo: nat, store: Store<int>, checks: map<CheckId, Check>)

  datatype Event =
    | GetKeyStep(check: CheckId, key: string)
    | AlertStep(check: CheckId)
    | SetStep(check: CheckId)
    | Tick(elapsed: nat)

  const INIT := State(0, 0, map[], map[])

  /** A check that dies on the way simply takes no further step. */
  function Step(cooldown: Lifetime, s: State, e: Event): State {
    var here := Stamp(s.now, s.seqNo);
    var t := s.(seqNo := s.seqNo + 1);
    match e
    case GetKeyStep(c, key) =>
      if c in s.checks || Get(s.store, s.now, key).Some? then t
      else t.(checks := s.checks[c := Check(key, here, None, None)])
    case AlertStep(c) =>
      if c !in s.checks || s.checks[c].alerted.Some? then t
      else t.(checks := s.checks[c := s.checks[c].(alerted := Some(here))])
    case SetStep(c) =>
      if c !in s.checks || s.checks[c].alerted.None? || s.checks[c].settled.Some? then t
      else t.(checks := s.checks[c := s.checks[c].(settled := Some(here))],
              store := Setex(s.store, s.now, s.checks[c].key, cooldown, 1))
    case Tick(d) => t.(now := s.now + d)
  }

  function Run(cooldown: Lifetime, es: seq<Event>): State {
    if es == [] then INIT else Step(cooldown, Run(cooldown, es[..|es| - 1]), es[|es| - 1])
  }

  ghost predicate CheckInv(cooldown: Lifetime, s: State, c: Check) {
    && c.got.seqNo < s.seqNo && c.got.at <= s.now
    && (c.alerted.Some? ==> c.got.at <= c.alerted.value.at <= s.now && c.got.seqNo < c.alerted.value.seqNo < s.seqNo)
    && (c.settled.Some? ==>
          && c.alerted.Some?
          && c.alerted.value.at <= c.settled.value.at <= s.now
          && c.alerted.value.seqNo < c.settled.value.seqNo < s.seqNo
          && c.key in s.store && s.store[c.key].deadline.Some?
          && c.settled.value.at + MS * cooldown <= s.store[c.key].deadline.value)
  }

  /** A later check of the same key passed only after the cooldown had run out. */
  ghost predicate Spaced(cooldown: Lifetime, a: Check, b: Check) {
    a.key == b.key && a.settled.Some? && a.settled.value.seqNo < b.got.seqNo
    ==> a.settled.value.at + MS * cooldown < b.got.at
  }

  /** A cooldown key was set by a check of that key, and counts from that moment. */
  ghost predicate SetByACheck(cooldown: Lifetime, s: State, key: string)
    requires key in s.store
  {
    exists c :: c in s.checks && s.checks[c].key == key && s.checks[c].settled.Some?
                && s.store[key].deadline == Some(s.checks[c].settled.value.at + MS * cooldown)
  }

  ghost predicate Inv(cooldown: Lifetime, s: State) {
    && (forall k :: k in s.store ==> SetByACheck(cooldown, s, k))
    && (forall c :: c in s.checks ==> CheckInv(cooldown, s, s.checks[c]))
    && (forall c, d :: c in s.checks && d in s.checks ==> Spaced(cooldown, s.checks[c], s.checks[d]))
  }

  lemma StepKeepsCheck(cooldown: Lifetime, s: State, e: Event, c: CheckId)
    requires c in s.checks ==> CheckInv(cooldown, s, s.checks[c])
    requires c in Step(cooldown, s, e).checks
    ensures CheckInv(cooldown, Step(cooldown, s, e), Step(cooldown, s, e).checks[c])
  {
  }

  lemma StepKeepsSpacing(cooldown: Lifetime, s: State, e: Event, c: CheckId, d: CheckId)
    requires c in s.checks ==> CheckInv(cooldown, s, s.checks[c])
    requires d in s.checks ==> CheckInv(cooldown, s, s.checks[d])
    requires c in s.checks && d in s.checks ==> Spaced(cooldown, s.checks[c], s.checks[d])
    requires c in Step(cooldown, s, e).checks && d in Step(cooldown, s, e).checks
    ensures Spaced(cooldown, Step(cooldown, s, e).checks[c], Step(cooldown, s, e).checks[d])
  {
  }

  lemma StepKeepsKeys(cooldown: Lifetime, s: State, e: Event, k: string)
    requires k in s.store ==> SetByACheck(cooldown, s, k)
    requires k in Step(cooldown, s, e).store
    ensures SetByACheck(cooldown, Step(cooldown, s, e), k)
  {
    var t := Step(cooldown, s, e);
    if k in s.store && t.store[k] == s.store[k] {
      var c :| c in s.checks && s.checks[c].key == k && s.checks[c].settled.Some?
               && s.store[k].deadline == Some(s.checks[c].settled.value.at + MS * cooldown);
      assert t.checks[c].key == k && t.checks[c].settled == s.checks[c].settled;
    } else {
      assert t.checks[e.check].key == k;
    }
  }

  lemma StepKeepsInv(cooldown: Lifetime, s: State, e: Event)
    requires Inv(cooldown, s)
    ensures Inv(cooldown, Step(cooldown, s, e))
  {
    var t := Step(cooldown, s, e);
    forall k | k in t.store ensures SetByACheck(cooldown, t, k) {
      StepKeepsKeys(cooldown, s, e, k);
    }
    forall c | c in t.checks ensures CheckInv(cooldown, t, t.checks[c]) {
      StepKeepsCheck(cooldown, s, e, c);
    }
    forall c, d | c in t.checks && d in t.checks ensures Spaced(cooldown, t.checks[c], t.checks[d]) {
      StepKeepsSpacing(cooldown, s, e, c, d);
    }
  }

  lemma {:induction false} RunKeepsInv(cooldown: Lifetime, es: seq<Event>)
    ensures Inv(cooldown, Run(cooldown, es))
  {
    if es == [] {
    } else {
      RunKeepsInv(cooldown, es[..|es| - 1]);
      StepKeepsInv(cooldown, Run(cooldown, es[..|es| - 1]), es[|es| - 1]);
    }
  }

  /**
   * In every interleaving: if check a had set the key before check b looked at it, their alerts are
   * more than the cooldown apart.
   */
  lemma SuccessiveAlertsAreSpaced(cooldown: Lifetime, es: seq<Event>, a: CheckId, b: CheckId)
    requires
      var s := Run(cooldown, es);
      && a in s.checks && b in s.checks && s.checks[a].key == s.checks[b].key
      && s.checks[a].settled.Some? && s.checks[b].alerted.Some?
      && s.checks[a].settled.value.seqNo < s.checks[b].got.seqNo
    ensures
      var s := Run(cooldown, es);
      s.checks[a].alerted.Some? && s.checks[a].alerted.value.at + MS * cooldown < s.checks[b].alerted.value.at
  {
    RunKeepsInv(cooldown, es);
    var s := Run(cooldown, es);
    assert CheckInv(cooldown, s, s.checks[a]) && CheckInv(cooldown, s, s.checks[b]);
    assert Spaced(cooldown, s.checks[a], s.checks[b]);
  }

  /** Checks of one key ran one after another: of two, one had set the key before the other looked. */
  ghost predicate Serial(s: State, key: string) {
    forall a, b ::
      Alerted(s, key, a) && Alerted(s, key, b) && a != b
      ==> Precedes(s.checks[a], s.checks[b]) || Precedes(s.checks[b], s.checks[a])
  }

  ghost predicate Precedes(a: Check, b: Check) {
    a.settled.Some? && a.settled.value.seqNo < b.got.seqNo
  }

  /** Run one after another, any two alerts of a key are more than the cooldown apart. */
  lemma SerialAlertsAreSpaced(cooldown: Lifetime, es: seq<Event>, key: string, a: CheckId, b: CheckId)
    requires Serial(Run(cooldown, es), key)
    requires Alerted(Run(cooldown, es), key, a) && Alerted(Run(cooldown, es), key, b) && a != b
    ensures FarApart(cooldown, Run(cooldown, es).checks[a], Run(cooldown, es).checks[b])
  {
    var s := Run(cooldown, es);
    if Precedes(s.checks[a], s.checks[b]) {
      SuccessiveAlertsAreSpaced(cooldown, es, a, b);
    } else {
      assert Precedes(s.checks[b], s.checks[a]);
      SuccessiveAlertsAreSpaced(cooldown, es, b, a);
    }
  }

  /** Steps in order are in order of time as well. */
  ghost predicate InOrder(a: Stamp, b: Stamp) {
    a.seqNo < b.seqNo ==> a.at <= b.at
  }

  /** Whichever of a's set step and b's get step came first, time agrees; they are never one step. */
  ghost predicate Ordered(a: Check, b: Check) {
    a.settled.Some? ==> InOrder(b.got, a.settled.value) && b.got.seqNo != a.settled.value.seqNo
  }

  lemma StepKeepsOrder(cooldown: Lifetime, s: State, e: Event, c: CheckId, d: CheckId)
    requires c in s.checks ==> CheckInv(cooldown, s, s.checks[c])
    requires d in s.checks ==> CheckInv(cooldown, s, s.checks[d])
    requires c in s.checks && d in s.checks ==> Ordered(s.checks[c], s.checks[d])
    requires c in Step(cooldown, s, e).checks && d in Step(cooldown, s, e).checks
    ensures Ordered(Step(cooldown, s, e).checks[c], Step(cooldown, s, e).checks[d])
  {
  }

  lemma {:induction false} RunIsOrdered(cooldown: Lifetime, es: seq<Event>, c: CheckId, d: CheckId)
    requires c in Run(cooldown, es).checks && d in Run(cooldown, es).checks
    ensures Ordered(Run(cooldown, es).checks[c], Run(cooldown, es).checks[d])
  {
    hide Step, CheckInv;
    var s, e := Run(cooldown, es[..|es| - 1]), es[|es| - 1];
    RunKeepsInv(cooldown, es[..|es| - 1]);
    if c in s.checks && d in s.checks {
      RunIsOrdered(cooldown, es[..|es| - 1], c, d);
    }
    StepKeepsOrder(cooldown, s, e, c, d);
  }

  /** The check ran to its end within `ms`, looking included. */
  ghost predicate Lasted(c: Check, ms: int) {
    c.settled.Some? && c.settled.value.at - c.got.at <= ms
  }

  ghost predicate Alerted(s: State, key: string, c: CheckId) {
    c in s.checks && s.checks[c].key == key && s.checks[c].alerted.Some?
  }

  ghost predicate FarApart(cooldown: Lifetime, a: Check, b: Check)
    requires a.alerted.Some? && b.alerted.Some?
  {
    var gap := a.alerted.value.at - b.alerted.value.at;
    gap < -MS * cooldown || MS * cooldown < gap
  }

  /** The later of two alerts more than a cooldown apart came from a check that began after the other had ended. */
  lemma FarApartMeansAfter(cooldown: Lifetime, es: seq<Event>, key: string, a: CheckId, b: CheckId, ms: nat)
    requires Alerted(Run(cooldown, es), key, a) && Alerted(Run(cooldown, es), key, b) && 2 * ms <= MS * cooldown
    requires Lasted(Run(cooldown, es).checks[a], ms) && Lasted(Run(cooldown, es).checks[b], ms)
    requires
      var s := Run(cooldown, es);
      s.checks[a].alerted.value.at + MS * cooldown < s.checks[b].alerted.value.at
    ensures Precedes(Run(cooldown, es).checks[a], Run(cooldown, es).checks[b])
  {
    RunKeepsInv(cooldown, es);
    RunIsOrdered(cooldown, es, a, b);
    var s := Run(cooldown, es);
    assert CheckInv(cooldown, s, s.checks[a]) && CheckInv(cooldown, s, s.checks[b]);
  }

  /**
   * Exactly when two alerts of a key are spaced, for checks that each run to their end within half a
   * cooldown: one of the two checks had set the key before the other looked.
   */
  lemma FarApartExactlyWhenSuccessive(cooldown: Lifetime, es: seq<Event>, key: string, a: CheckId, b: CheckId, ms: nat)
    requires Alerted(Run(cooldown, es), key, a) && Alerted(Run(cooldown, es), key, b) && 2 * ms <= MS * cooldown
    requires Lasted(Run(cooldown, es).checks[a], ms) && Lasted(Run(cooldown, es).checks[b], ms)
    ensures
      var s := Run(cooldown, es);
      FarApart(cooldown, s.checks[a], s.checks[b])
      <==> Precedes(s.checks[a], s.checks[b]) || Precedes(s.checks[b], s.checks[a])
  {
    hide Run;
    var s := Run(cooldown, es);
    if Precedes(s.checks[a], s.checks[b]) {
      SuccessiveAlertsAreSpaced(cooldown, es, a, b);
    } else if Precedes(s.checks[b], s.checks[a]) {
      SuccessiveAlertsAreSpaced(cooldown, es, b, a);
    } else if s.checks[a].alerted.value.at + MS * cooldown < s.checks[b].alerted.value.at {
      FarApartMeansAfter(cooldown, es, key, a, b, ms);
    } else if s.checks[b].alerted.value.at + MS * cooldown < s.checks[a].alerted.value.at {
      FarApartMeansAfter(cooldown, es, key, b, a, ms);
    }
  }

  /** Over a whole run: the alerts of a key are all spaced exactly when its alerting checks ran one after another. */
  lemma SpacedExactlyWhenSerial(cooldown: Lifetime, es: seq<Event>, key: string, ms: nat)
    requires 2 * ms <= MS * cooldown
    requires forall c :: Alerted(Run(cooldown, es), key, c) ==> Lasted(Run(cooldown, es).checks[c], ms)
    ensures
      var s := Run(cooldown, es);
      Serial(s, key)
      <==> forall a, b :: Alerted(s, key, a) && Alerted(s, key, b) && a != b ==> FarApart(cooldown, s.checks[a], s.checks[b])
  {
    hide Run;
    var s := Run(cooldown, es);
    forall a, b | Alerted(s, key, a) && Alerted(s, key, b)
      ensures FarApart(cooldown, s.checks[a], s.checks[b])
         <==> Precedes(s.checks[a], s.checks[b]) || Precedes(s.checks[b], s.checks[a])
    {
      FarApartExactlyWhenSuccessive(cooldown, es, key, a, b, ms);
    }
    if !Serial(s, key) {
      var a, b :| Alerted(s, key, a) && Alerted(s, key, b) && a != b
                  && !Precedes(s.checks[a], s.checks[b]) && !Precedes(s.checks[b], s.checks[a]);
      assert !FarApart(cooldown, s.checks[a], s.checks[b]);
    }
  }

  /** A look that is refused has an alert of that key behind it, whose check set the key at most one cooldown ago. */
  lemma RefusalIsJustified(cooldown: Lifetime, es: seq<Event>, key: string)
    requires Get(Run(cooldown, es).store, Run(cooldown, es).now, key).Some?
    ensures
      var s := Run(cooldown, es);
      exists c :: Alerted(s, key, c) && s.checks[c].settled.Some?
                  && s.now - MS * cooldown <= s.checks[c].settled.value.at <= s.now
  {
    RunKeepsInv(cooldown, es);
    hide Run;
    var s := Run(cooldown, es);
    assert SetByACheck(cooldown, s, key);
    var c :| c in s.checks && s.checks[c].key == key && s.checks[c].settled.Some?
             && s.store[key].deadline == Some(s.checks[c].settled.value.at + MS * cooldown);
    assert CheckInv(cooldown, s, s.checks[c]) && Alerted(s, key, c);
  }

  /** The shortest overlap, possible whenever no cooldown is present: two alerts of one key at the same moment. */
  lemma OverlappingChecksAlertTwice(cooldown: Lifetime, s: State, key: string, c: CheckId, d: CheckId)
    requires c !in s.checks && d !in s.checks && c != d && Get(s.store, s.now, key).None?
    ensures
      var looked := Step(cooldown, Step(cooldown, s, GetKeyStep(c, key)), GetKeyStep(d, key));
      var t := Step(cooldown, Step(cooldown, Step(cooldown, looked, AlertStep(c)), SetStep(c)), AlertStep(d));
      Alerted(t, key, c) && Alerted(t, key, d) && t.checks[c].alerted.value.at == t.checks[d].alerted.value.at
  {
  }

  /**
   * The three steps without interruption: a present cooldown leaves everything as it was, an absent one
   * yields one alert and a cooldown from now on, which is what the service methods do.
   */
  lemma UninterruptedCheck(cooldown: Lifetime, s: State, c: CheckId, key: string)
    requires c !in s.checks
    ensures
      var t := Step(cooldown, Step(cooldown, Step(cooldown, s, GetKeyStep(c, key)), AlertStep(c)), SetStep(c));
      if Get(s.store, s.now, key).Some? then t.store == s.store && t.checks == s.checks
      else
        && t.store == Setex(s.store, s.now, key, cooldown, 1)
        && t.checks.Keys == s.checks.Keys + {c}
        && t.checks[c].alerted.Some? && t.checks[c].alerted.value.at == s.now
        && forall d :: d in s.checks ==> t.checks[d] == s.checks[d]
  {
    var s1 := Step(cooldown, s, GetKeyStep(c, key));
    if Get(s.store, s.now, key).None? {
      var s2 := Step(cooldown, s1, AlertStep(c));
      assert s2.checks[c] == Check(key, Stamp(s.now, s.seqNo), Some(Stamp(s.now, s.seqNo + 1)), None);
    }
  }
}
