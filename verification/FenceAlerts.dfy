/**
 * Geofence transitions composed with the 300 s alert cooldown: what happens to each reported
 * transition over whole runs of position checks, each check one atomic step.
 */
module FenceAlerts {
  import opened Base
  import opened TtlStore
  import Keys
  import opened Text
  import opened Geofences

  const GEOFENCE_COOLDOWN_SECONDS: Lifetime := 300
  const COOLDOWN := MS * GEOFENCE_COOLDOWN_SECONDS

  /** `${alertType}:${deviceId}:${geofence.id}` */
  function CooldownKey(t: FenceAlert, device: string, fence: string): string {
    Keys.Key(if t == GeofenceExit then Keys.FenceExit else Keys.FenceEntry, device + [':'] + fence)
  }

  predicate ColonFree(device: string, fence: string) {
    ':' !in device && ':' !in fence
  }

  /** Ids without a colon never share a cooldown key. */
  lemma KeysAreInjective(t: FenceAlert, device: string, fence: string, t': FenceAlert, device': string, fence': string)
    requires ColonFree(device, fence) && ColonFree(device', fence')
    requires CooldownKey(t, device, fence) == CooldownKey(t', device', fence')
    ensures t == t' && device == device' && fence == fence'
  {
    Keys.KeysNeverCollide(if t == GeofenceExit then Keys.FenceExit else Keys.FenceEntry, device + [':'] + fence,
                          if t' == GeofenceExit then Keys.FenceExit else Keys.FenceEntry, device' + [':'] + fence');
    SplitTwo(device, fence, ':');
    SplitTwo(device', fence', ':');
    assert [device, fence][0] == [device', fence'][0] && [device, fence][1] == [device', fence'][1];
  }

  datatype Raised = Raised(alert: FenceAlert, device: string, fence: string, at: int)

  function KeyOf(r: Raised): string {
    CooldownKey(r.alert, r.device, r.fence)
  }

  predicate SameSubject(a: Raised, b: Raised) {
    a.alert == b.alert && a.device == b.device && a.fence == b.fence
  }

  /** `suppressed` is history. */
  datatype World = World(
    now: int,
    states: States,
    cooldowns: Store<int>,
    alerts: seq<Raised>,
    suppressed: seq<Raised>)

  datatype Event = Observe(check: Check) | Tick(elapsed: nat)

  const INIT := World(0, map[], map[], [], [])

  /** The state after raising r: an alert and a cooldown under its key. */
  function Raise(w: World, key: string, r: Raised): World {
    w.(alerts := w.alerts + [r], cooldowns := Setex(w.cooldowns, w.now, key, GEOFENCE_COOLDOWN_SECONDS, 1))
  }

  function Suppress(w: World, r: Raised): World {
    w.(suppressed := w.suppressed + [r])
  }

  /** One reported violation: skipped under a cooldown, otherwise an alert and a fresh cooldown. */
  function HandleOne(w: World, device: string, v: Violation): World {
    var r := Raised(v.alert, device, v.fence, w.now);
    if Get(w.cooldowns, w.now, KeyOf(r)).Some? then Suppress(w, r)
    else Raise(w, KeyOf(r), r)
  }

  function HandleAll(w: World, device: string, vs: seq<Violation>): World {
    if vs == [] then w else HandleOne(HandleAll(w, device, vs[..|vs| - 1]), device, vs[|vs| - 1])
  }

  function Step(w: World, e: Event): World {
    match e
    case Tick(d) => w.(now := w.now + d)
    case Observe(c) =>
      var (states, vs) := Evaluate(w.states, c.device, c.rows);
      HandleAll(w, c.device, vs).(states := states)
  }

  function Run(es: seq<Event>): World {
    if es == [] then INIT else Step(Run(es[..|es| - 1]), es[|es| - 1])
  }

  /** Some alert of the same type, device and fence lies at most 300 s before r. */
  ghost predicate Covered(w: World, r: Raised) {
    exists i :: 0 <= i < |w.alerts| && SameSubject(w.alerts[i], r) && r.at - 300000 <= w.alerts[i].at <= r.at
  }

  /** A cooldown entry was set by an alert, when that alert was raised. */
  ghost predicate SetByAlert(w: World, key: string)
    requires key in w.cooldowns
  {
    exists i :: 0 <= i < |w.alerts| && KeyOf(w.alerts[i]) == key && w.cooldowns[key].deadline == Some(w.alerts[i].at + COOLDOWN)
  }

  ghost predicate AlertInv(w: World, a: Raised) {
    && ColonFree(a.device, a.fence) && a.at <= w.now
    && KeyOf(a) in w.cooldowns && w.cooldowns[KeyOf(a)].deadline.Some?
    && a.at + COOLDOWN <= w.cooldowns[KeyOf(a)].deadline.value
  }

  ghost predicate Apart(a: Raised, b: Raised) {
    SameSubject(a, b) ==> a.at + COOLDOWN < b.at
  }

  ghost predicate Inv(w: World) {
    && (forall i :: 0 <= i < |w.alerts| ==> AlertInv(w, w.alerts[i]))
    && (forall k :: k in w.cooldowns ==> SetByAlert(w, k))
    && (forall i :: 0 <= i < |w.suppressed| ==> Covered(w, w.suppressed[i]))
    && (forall i, j :: 0 <= i < j < |w.alerts| ==> Apart(w.alerts[i], w.alerts[j]))
  }

  /** More alerts keep what was covered covered. */
  lemma CoveredStays(w: World, u: World, r: Raised)
    requires Covered(w, r) && w.alerts <= u.alerts
    ensures Covered(u, r)
  {
    var i :| 0 <= i < |w.alerts| && SameSubject(w.alerts[i], r) && r.at - 300000 <= w.alerts[i].at <= r.at;
    assert u.alerts[i] == w.alerts[i];
  }

  lemma KeyNamesSubject(a: Raised, b: Raised)
    requires ColonFree(a.device, a.fence) && ColonFree(b.device, b.fence) && KeyOf(a) == KeyOf(b)
    ensures SameSubject(a, b)
  {
    KeysAreInjective(a.alert, a.device, a.fence, b.alert, b.device, b.fence);
  }

  lemma PresentCooldownCovers(w: World, r: Raised, key: string)
    requires Inv(w) && ColonFree(r.device, r.fence) && r.at == w.now && key == KeyOf(r)
    requires Get(w.cooldowns, w.now, key).Some?
    ensures Covered(w, r)
  {
    hide CooldownKey;
    assert SetByAlert(w, key);
    var i :| 0 <= i < |w.alerts| && KeyOf(w.alerts[i]) == key && w.cooldowns[key].deadline == Some(w.alerts[i].at + COOLDOWN);
    assert AlertInv(w, w.alerts[i]);
    KeyNamesSubject(w.alerts[i], r);
  }

  /** Noting a suppression changes no alert and no cooldown. */
  lemma SuppressKeepsInv(w: World, r: Raised)
    requires Inv(w) && Covered(w, r)
    ensures Inv(Suppress(w, r))
  {
    var u := Suppress(w, r);
    InvParts(w, u);
    forall k | 0 <= k < |u.suppressed| ensures Covered(u, u.suppressed[k]) {
      CoveredStays(w, u, u.suppressed[k]);
    }
  }

  lemma InvParts(w: World, u: World)
    requires Inv(w) && u.alerts == w.alerts && u.cooldowns == w.cooldowns && w.now <= u.now
    ensures forall i :: 0 <= i < |u.alerts| ==> AlertInv(u, u.alerts[i])
    ensures forall k :: k in u.cooldowns ==> SetByAlert(u, k)
  {
    forall i | 0 <= i < |u.alerts| ensures AlertInv(u, u.alerts[i]) {
      assert AlertInv(w, w.alerts[i]);
    }
    forall k | k in u.cooldowns ensures SetByAlert(u, k) {
      assert SetByAlert(w, k);
    }
  }

  lemma SetByAlertStays(w: World, u: World, key: string)
    requires key in w.cooldowns && SetByAlert(w, key)
    requires w.alerts <= u.alerts && key in u.cooldowns && u.cooldowns[key] == w.cooldowns[key]
    ensures SetByAlert(u, key)
  {
    var i :| 0 <= i < |w.alerts| && KeyOf(w.alerts[i]) == key && w.cooldowns[key].deadline == Some(w.alerts[i].at + COOLDOWN);
    assert u.alerts[i] == w.alerts[i];
  }

  lemma RaiseSetsItsKey(w: World, key: string, r: Raised)
    requires r.at == w.now && key == KeyOf(r)
    ensures SetByAlert(Raise(w, key, r), key)
  {
    var u := Raise(w, key, r);
    assert u.alerts[|w.alerts|] == r;
  }

  lemma RaiseSets(w: World, key: string, r: Raised, k: string)
    requires Inv(w) && r.at == w.now && key == KeyOf(r) && k in Raise(w, key, r).cooldowns
    ensures SetByAlert(Raise(w, key, r), k)
  {
    if k == key {
      RaiseSetsItsKey(w, key, r);
    } else {
      SetByAlertStays(w, Raise(w, key, r), k);
    }
  }

  lemma RaiseKeepsAlert(w: World, key: string, r: Raised, a: Raised)
    requires AlertInv(w, a) && r.at == w.now
    ensures AlertInv(Raise(w, key, r), a)
  {
  }

  lemma RaiseIsApart(w: World, key: string, r: Raised, a: Raised)
    requires AlertInv(w, a) && r.at == w.now && key == KeyOf(r) && Get(w.cooldowns, w.now, key).None?
    ensures Apart(a, r)
  {
  }

  lemma RaiseKeepsInv(w: World, key: string, r: Raised)
    requires Inv(w) && ColonFree(r.device, r.fence) && r.at == w.now && key == KeyOf(r)
    requires Get(w.cooldowns, w.now, key).None?
    ensures Inv(Raise(w, key, r))
  {
    var u := Raise(w, key, r);
    var n := |w.alerts|;
    forall k | k in u.cooldowns ensures SetByAlert(u, k) {
      RaiseSets(w, key, r, k);
    }
    assert AlertInv(u, r);
    forall i | 0 <= i < |u.alerts| ensures AlertInv(u, u.alerts[i]) {
      if i < n {
        RaiseKeepsAlert(w, key, r, w.alerts[i]);
      }
    }
    forall k | 0 <= k < |u.suppressed| ensures Covered(u, u.suppressed[k]) {
      CoveredStays(w, u, u.suppressed[k]);
    }
    forall i, j | 0 <= i < j < |u.alerts| ensures Apart(u.alerts[i], u.alerts[j]) {
      if j < n {
        assert Apart(w.alerts[i], w.alerts[j]);
      } else {
        RaiseIsApart(w, key, r, w.alerts[i]);
      }
    }
  }

  lemma HandleOneKeepsInv(w: World, device: string, v: Violation)
    requires Inv(w) && ColonFree(device, v.fence)
    ensures Inv(HandleOne(w, device, v))
  {
    var r := Raised(v.alert, device, v.fence, w.now);
    if Get(w.cooldowns, w.now, KeyOf(r)).Some? {
      PresentCooldownCovers(w, r, KeyOf(r));
      SuppressKeepsInv(w, r);
      assert HandleOne(w, device, v) == Suppress(w, r);
    } else {
      RaiseKeepsInv(w, KeyOf(r), r);
      assert HandleOne(w, device, v) == Raise(w, KeyOf(r), r);
    }
  }

  lemma {:induction false} HandleAllKeepsInv(w: World, device: string, vs: seq<Violation>)
    requires Inv(w) && forall i :: 0 <= i < |vs| ==> ColonFree(device, vs[i].fence)
    ensures Inv(HandleAll(w, device, vs))
    ensures HandleAll(w, device, vs).now == w.now
  {
    if vs == [] {
    } else {
      HandleAllKeepsInv(w, device, vs[..|vs| - 1]);
      HandleOneKeepsInv(HandleAll(w, device, vs[..|vs| - 1]), device, vs[|vs| - 1]);
    }
  }

  lemma {:induction false} ReportsNameRows(states: States, device: string, rows: seq<Row>)
    requires forall i :: 0 <= i < |rows| ==> ColonFree(device, rows[i].fence)
    ensures forall i :: 0 <= i < |Evaluate(states, device, rows).1| ==> ColonFree(device, Evaluate(states, device, rows).1[i].fence)
  {
    if rows == [] {
    } else {
      ReportsNameRows(states, device, rows[..|rows| - 1]);
    }
  }

  ghost predicate ColonFreeRun(es: seq<Event>) {
    forall n :: 0 <= n < |es| && es[n].Observe? ==> ColonFreeCheck(es[n].check)
  }

  ghost predicate ColonFreeCheck(c: Check) {
    forall i :: 0 <= i < |c.rows| ==> ColonFree(c.device, c.rows[i].fence)
  }

  /** Replacing the presence store, or letting time pass, affects no alert bookkeeping. */
  lemma InvIgnoresStates(w: World, states: States, now: int)
    requires Inv(w) && w.now <= now
    ensures Inv(w.(states := states, now := now))
  {
    var u := w.(states := states, now := now);
    InvParts(w, u);
    forall i | 0 <= i < |u.suppressed| ensures Covered(u, u.suppressed[i]) {
      CoveredStays(w, u, u.suppressed[i]);
    }
  }

  lemma ObserveKeepsInv(w: World, c: Check)
    requires Inv(w) && ColonFreeCheck(c)
    ensures Inv(Step(w, Observe(c)))
  {
    ReportsNameRows(w.states, c.device, c.rows);
    var (states, vs) := Evaluate(w.states, c.device, c.rows);
    HandleAllKeepsInv(w, c.device, vs);
    InvIgnoresStates(HandleAll(w, c.device, vs), states, w.now);
  }

  lemma StepKeepsInv(w: World, e: Event)
    requires Inv(w) && (e.Observe? ==> ColonFreeCheck(e.check))
    ensures Inv(Step(w, e))
  {
    hide CooldownKey;
    match e
    case Tick(d) => InvIgnoresStates(w, w.states, w.now + d);
    case Observe(c) => ObserveKeepsInv(w, c);
  }

  lemma {:induction false} RunKeepsInv(es: seq<Event>)
    requires ColonFreeRun(es)
    ensures Inv(Run(es))
  {
    if es == [] {
    } else {
      var init, last := es[..|es| - 1], es[|es| - 1];
      assert ColonFreeRun(init);
      RunKeepsInv(init);
      StepKeepsInv(Run(init), last);
    }
  }

  /** A suppressed transition has an alert of the same type, device and fence at most 300 s before it. */
  lemma SuppressionIsJustified(es: seq<Event>, n: nat)
    requires ColonFreeRun(es) && n < |Run(es).suppressed|
    ensures Covered(Run(es), Run(es).suppressed[n])
  {
    RunKeepsInv(es);
  }

  /** Two alerts of the same type, device and fence are more than 300 s apart. */
  lemma AlertsAreSpaced(es: seq<Event>, i: nat, j: nat)
    requires ColonFreeRun(es) && i < j < |Run(es).alerts| && SameSubject(Run(es).alerts[i], Run(es).alerts[j])
    ensures Run(es).alerts[i].at + 300000 < Run(es).alerts[j].at
  {
    RunKeepsInv(es);
    assert Apart(Run(es).alerts[i], Run(es).alerts[j]);
  }

  // ----- Conservation: what the transition engine reports is what becomes of it -----

  /** The position checks of a run, on their own. */
  function ChecksOf(es: seq<Event>): seq<Check> {
    if es == [] then []
    else ChecksOf(es[..|es| - 1]) + match es[|es| - 1] case Observe(c) => [c] case Tick(_) => []
  }

  function Clock(es: seq<Event>): int {
    if es == [] then 0
    else Clock(es[..|es| - 1]) + match es[|es| - 1] case Observe(_) => 0 case Tick(d) => d
  }

  function Subjects(device: string, at: int, vs: seq<Violation>): seq<Raised> {
    if vs == [] then []
    else Subjects(device, at, vs[..|vs| - 1]) + [Raised(vs[|vs| - 1].alert, device, vs[|vs| - 1].fence, at)]
  }

  /** The transitions of a run as the geofence engine alone reports them, with the time of each. */
  function Transitions(es: seq<Event>): seq<Raised> {
    if es == [] then []
    else
      Transitions(es[..|es| - 1])
      + match es[|es| - 1]
        case Tick(_) => []
        case Observe(c) => Subjects(c.device, Clock(es), ReportsAt(ChecksOf(es), |ChecksOf(es)| - 1))
  }

  function Count(rs: seq<Raised>, p: Raised -> bool): nat {
    if rs == [] then 0 else Count(rs[..|rs| - 1], p) + if p(rs[|rs| - 1]) then 1 else 0
  }

  lemma {:induction false} CountAppend(a: seq<Raised>, b: seq<Raised>, p: Raised -> bool)
    ensures Count(a + b, p) == Count(a, p) + Count(b, p)
    decreases |b|
  {
    if b == [] {
      assert a + b == a;
    } else {
      assert (a + b)[..|a + b| - 1] == a + b[..|b| - 1];
      CountAppend(a, b[..|b| - 1], p);
    }
  }

  lemma CountOneMore(a: seq<Raised>, r: Raised, p: Raised -> bool)
    ensures Count(a + [r], p) == Count(a, p) + if p(r) then 1 else 0
  {
    assert (a + [r])[..|a|] == a;
  }

  lemma HandleOneConserves(w: World, device: string, v: Violation, p: Raised -> bool)
    ensures
      var t := HandleOne(w, device, v);
      && t.now == w.now && t.states == w.states
      && Count(t.alerts, p) + Count(t.suppressed, p)
         == Count(w.alerts, p) + Count(w.suppressed, p) + if p(Raised(v.alert, device, v.fence, w.now)) then 1 else 0
  {
    hide Count, CooldownKey;
    var r := Raised(v.alert, device, v.fence, w.now);
    CountOneMore(w.alerts, r, p);
    CountOneMore(w.suppressed, r, p);
  }

  lemma {:induction false} HandleAllConserves(w: World, device: string, vs: seq<Violation>, p: Raised -> bool)
    ensures
      var t := HandleAll(w, device, vs);
      && t.now == w.now && t.states == w.states
      && Count(t.alerts, p) + Count(t.suppressed, p)
         == Count(w.alerts, p) + Count(w.suppressed, p) + Count(Subjects(device, w.now, vs), p)
  {
    hide Count, HandleOne;
    if vs == [] {
      CountAppend(w.alerts, [], p);
      assert w.alerts + [] == w.alerts;
    } else {
      var init, v := vs[..|vs| - 1], vs[|vs| - 1];
      HandleAllConserves(w, device, init, p);
      HandleOneConserves(HandleAll(w, device, init), device, v, p);
      CountOneMore(Subjects(device, w.now, init), Raised(v.alert, device, v.fence, w.now), p);
    }
  }

  /** The composed run sees time and stores presences as the engine alone would. */
  lemma {:induction false} StatesFollowChecks(es: seq<Event>)
    ensures Run(es).states == StatesAfter(ChecksOf(es)) && Run(es).now == Clock(es)
  {
    hide HandleAll, Evaluate;
    if es == [] {
    } else {
      StatesFollowChecks(es[..|es| - 1]);
      match es[|es| - 1]
      case Tick(_) =>
        assert ChecksOf(es) == ChecksOf(es[..|es| - 1]);
      case Observe(c) =>
        HandleAllConserves(Run(es[..|es| - 1]), c.device, Evaluate(Run(es[..|es| - 1]).states, c.device, c.rows).1, r => true);
        assert ChecksOf(es)[..|ChecksOf(es)| - 1] == ChecksOf(es[..|es| - 1]);
    }
  }

  /**
   * Of every kind of transition the engine reports, as many as it reports become alerts or are
   * suppressed: none is lost, doubled, or turned into another.
   */
  lemma {:induction false} TransitionsAreConserved(es: seq<Event>, p: Raised -> bool)
    ensures Count(Run(es).alerts, p) + Count(Run(es).suppressed, p) == Count(Transitions(es), p)
  {
    hide HandleAll, Evaluate, Subjects;
    if es == [] {
    } else {
      var init, last := es[..|es| - 1], es[|es| - 1];
      var w := Run(init);
      TransitionsAreConserved(init, p);
      match last
      case Tick(_) =>
        CountAppend(Transitions(init), [], p);
      case Observe(c) =>
        StatesFollowChecks(init);
        var vs := Evaluate(w.states, c.device, c.rows).1;
        assert ChecksOf(es)[..|ChecksOf(es)| - 1] == ChecksOf(init);
        HandleAllConserves(w, c.device, vs, p);
        CountAppend(Transitions(init), Subjects(c.device, w.now, vs), p);
    }
  }

  /** The reports of all checks of a run. */
  function TotalReports(checks: seq<Check>): nat {
    if checks == [] then 0 else TotalReports(checks[..|checks| - 1]) + |ReportsAt(checks, |checks| - 1)|
  }

  lemma {:induction false} CountEverything(rs: seq<Raised>)
    ensures Count(rs, r => true) == |rs|
  {
    if rs == [] {
    } else {
      CountEverything(rs[..|rs| - 1]);
    }
  }

  lemma {:induction false} SubjectsSize(device: string, at: int, vs: seq<Violation>)
    ensures |Subjects(device, at, vs)| == |vs|
  {
    if vs == [] {
    } else {
      SubjectsSize(device, at, vs[..|vs| - 1]);
    }
  }

  lemma {:induction false} TransitionsSize(es: seq<Event>)
    ensures |Transitions(es)| == TotalReports(ChecksOf(es))
  {
    hide Subjects, StatesAfter, Evaluate, ReportsAt;
    if es == [] {
    } else {
      var init, checks := es[..|es| - 1], ChecksOf(es);
      TransitionsSize(init);
      match es[|es| - 1]
      case Tick(_) =>
        assert checks == ChecksOf(init) && Transitions(es) == Transitions(init);
      case Observe(c) =>
        assert checks[..|checks| - 1] == ChecksOf(init);
        SubjectsSize(c.device, Clock(es), ReportsAt(checks, |checks| - 1));
    }
  }

  /** Over every run, the reports of all its checks are the alerts and the suppressed transitions together. */
  lemma EdgesAreConserved(es: seq<Event>)
    ensures TotalReports(ChecksOf(es)) == |Run(es).alerts| + |Run(es).suppressed|
  {
    TransitionsAreConserved(es, r => true);
    CountEverything(Run(es).alerts);
    CountEverything(Run(es).suppressed);
    CountEverything(Transitions(es));
    TransitionsSize(es);
  }

  // ----- Conservation for one device and fence -----

  function ForPair(device: string, fence: string): Raised -> bool {
    (r: Raised) => r.device == device && r.fence == fence
  }

  /** Reports for another device, or that do not name the fence, add nothing to a pair. */
  lemma {:induction false} UnreportedAddsNothing(device: string, fence: string, d: string, at: int, vs: seq<Violation>)
    requires d != device || !ReportedIn(vs, fence)
    ensures Count(Subjects(d, at, vs), ForPair(device, fence)) == 0
  {
    if vs == [] {
    } else {
      var init := vs[..|vs| - 1];
      if d == device {
        assert vs[|vs| - 1].fence != fence;
        assert forall i :: 0 <= i < |init| ==> init[i] == vs[i];
      }
      UnreportedAddsNothing(device, fence, d, at, init);
      CountOneMore(Subjects(d, at, init), Raised(vs[|vs| - 1].alert, d, vs[|vs| - 1].fence, at), ForPair(device, fence));
    }
  }

  /** Only rows are reported. */
  lemma ReportedFencesHaveRows(states: States, device: string, rows: seq<Row>, fence: string)
    requires forall i :: 0 <= i < |rows| ==> rows[i].fence != fence
    ensures !ReportedIn(Filter(states, device, rows), fence)
  {
    FilterReports(states, device, rows, fence);
  }

  /** With one row per fence a check reports a fence at most once. */
  lemma {:induction false} ReportedOnce(states: States, device: string, rows: seq<Row>, at: int, fence: string)
    requires DistinctFences(rows)
    ensures Count(Subjects(device, at, Filter(states, device, rows)), ForPair(device, fence))
         == if ReportedIn(Filter(states, device, rows), fence) then 1 else 0
  {
    assert !ReportedIn([], fence);
    hide Count, ReportedIn;
    if rows == [] {
      UnreportedAddsNothing(device, fence, device, at, []);
    } else {
      var init, row := rows[..|rows| - 1], rows[|rows| - 1];
      ReportedOnce(states, device, init, at, fence);
      LastRowReport(states, device, init, row, at, fence);
      if row.fence == fence {
        ReportedFencesHaveRows(states, device, init, fence);
      }
    }
  }

  /** One more report of the device. */
  lemma OneMoreReport(device: string, at: int, before: seq<Violation>, v: Violation, fence: string)
    ensures Count(Subjects(device, at, before + [v]), ForPair(device, fence))
         == Count(Subjects(device, at, before), ForPair(device, fence)) + if v.fence == fence then 1 else 0
    ensures ReportedIn(before + [v], fence) <==> ReportedIn(before, fence) || v.fence == fence
  {
    hide Count;
    var all := before + [v];
    assert all[..|before|] == before && all[|before|] == v;
    CountOneMore(Subjects(device, at, before), Raised(v.alert, device, v.fence, at), ForPair(device, fence));
    assert forall i :: 0 <= i < |before| ==> all[i] == before[i];
  }

  /** What one more row adds. */
  lemma LastRowReport(states: States, device: string, init: seq<Row>, row: Row, at: int, fence: string)
    ensures
      var before, last := Filter(states, device, init), Report(states, device, row);
      && Count(Subjects(device, at, before + last), ForPair(device, fence))
         == Count(Subjects(device, at, before), ForPair(device, fence)) + (if last != [] && row.fence == fence then 1 else 0)
      && (ReportedIn(before + last, fence) <==> ReportedIn(before, fence) || (last != [] && row.fence == fence))
  {
    hide Count, Subjects, ReportedIn, Filter;
    var before, last := Filter(states, device, init), Report(states, device, row);
    if last == [] {
      assert before + last == before;
    } else {
      OneMoreReport(device, at, before, last[0], fence);
    }
  }

  lemma {:induction false} TruesOneMore(s: seq<bool>, x: bool)
    ensures Trues(s + [x]) == Trues(s) + if x then 1 else 0
  {
    if s == [] {
      assert (s + [x])[1..] == [];
    } else {
      assert (s + [x])[1..] == s[1..] + [x];
      TruesOneMore(s[1..], x);
    }
  }

  /** What one check adds to a pair: one transition if it concerns the pair and reports it. */
  lemma CheckAdds(checks: seq<Check>, device: string, fence: string, at: int)
    requires checks != [] && DistinctFences(checks[|checks| - 1].rows)
    ensures
      var last := checks[|checks| - 1];
      var reports := ReportsAt(checks, |checks| - 1);
      Count(Subjects(last.device, at, reports), ForPair(device, fence))
      == if Concerns(last, device, fence) && ReportedIn(reports, fence) then 1 else 0
  {
    hide Count, Subjects;
    var last := checks[|checks| - 1];
    var states := StatesAfter(checks[..|checks| - 1]);
    LoopEqualsFilter(states, last.device, last.rows);
    if last.device != device {
      UnreportedAddsNothing(device, fence, last.device, at, ReportsAt(checks, |checks| - 1));
    } else {
      ReportedOnce(states, device, last.rows, at, fence);
      if !Concerns(last, device, fence) {
        ReportedFencesHaveRows(states, device, last.rows, fence);
      }
    }
  }

  lemma {:induction false} TransitionsOfAPair(es: seq<Event>, device: string, fence: string, t: FenceType)
    requires WellFormed(ChecksOf(es), fence, t)
    ensures Count(Transitions(es), ForPair(device, fence)) == Trues(Reported(ChecksOf(es), device, fence))
  {
    hide Count, Subjects, ReportsAt, Trues, Concerns, ReportedIn;
    var p := ForPair(device, fence);
    if es == [] {
      NothingCounted(p);
    } else {
      var init, last := es[..|es| - 1], es[|es| - 1];
      var checks := ChecksOf(es);
      match last
      case Tick(_) =>
        assert checks == ChecksOf(init) && Transitions(es) == Transitions(init);
        TransitionsOfAPair(init, device, fence, t);
      case Observe(c) =>
        var n := |checks| - 1;
        assert checks[..n] == ChecksOf(init) && checks[n] == c;
        assert WellFormedCheck(checks[n], fence, t);
        assert forall k :: 0 <= k < n ==> ChecksOf(init)[k] == checks[k];
        TransitionsOfAPair(init, device, fence, t);
        CheckAdds(checks, device, fence, Clock(es));
        CountAppend(Transitions(init), Subjects(c.device, Clock(es), ReportsAt(checks, n)), p);
        TruesOneMore(Reported(checks[..n], device, fence), ReportedIn(ReportsAt(checks, n), fence));
        assert Reported(checks[..n], device, fence) + [] == Reported(checks[..n], device, fence);
    }
  }

  lemma NothingCounted(p: Raised -> bool)
    ensures Count([], p) == 0 && Trues([]) == 0
  {
  }

  /**
   * Transitions and cooldown composed, for one device and fence of fixed type: the alerts and the
   * suppressed transitions together are the visits of the device to the fence's violating side.
   */
  lemma VisitsAreConserved(es: seq<Event>, device: string, fence: string, t: FenceType)
    requires WellFormed(ChecksOf(es), fence, t)
    ensures Count(Run(es).alerts, ForPair(device, fence)) + Count(Run(es).suppressed, ForPair(device, fence))
         == Blocks(Observed(ChecksOf(es), device, fence))
  {
    TransitionsAreConserved(es, ForPair(device, fence));
    TransitionsOfAPair(es, device, fence, t);
    ReportCount(ChecksOf(es), device, fence, t);
  }

  // ----- What alerts say -----

  lemma {:induction false} CountIsMembership(rs: seq<Raised>, r: Raised)
    ensures r in rs <==> Count(rs, x => x == r) > 0
  {
    if rs == [] {
    } else {
      CountIsMembership(rs[..|rs| - 1], r);
      assert rs == rs[..|rs| - 1] + [rs[|rs| - 1]];
    }
  }

  /** Exactly the transitions reported become alerts or are suppressed. */
  lemma RaisedOrSuppressedExactly(es: seq<Event>, r: Raised)
    ensures r in Run(es).alerts || r in Run(es).suppressed <==> r in Transitions(es)
  {
    TransitionsAreConserved(es, x => x == r);
    CountIsMembership(Run(es).alerts, r);
    CountIsMembership(Run(es).suppressed, r);
    CountIsMembership(Transitions(es), r);
  }

  /** The check at event m saw r happen: r's subject, at that time, with its kind of zone and whereabouts. */
  ghost predicate Saw(es: seq<Event>, m: nat, r: Raised) {
    && m < |es| && es[m].Observe? && es[m].check.device == r.device && Clock(es[..m]) == r.at
    && exists row :: row in es[m].check.rows && row.fence == r.fence
                     && match r.alert
                        case GeofenceExit =>
                          && row.fenceType != Some(ForbiddenZone) && row.isInside != Some(true)
                          && LastInside(ChecksOf(es[..m]), r.device, r.fence) != Some(false)
                        case GeofenceEntry =>
                          && row.fenceType == Some(ForbiddenZone) && row.isInside == Some(true)
                          && LastInside(ChecksOf(es[..m]), r.device, r.fence) != Some(true)
  }

  lemma {:induction false} SubjectsComeFromReports(device: string, at: int, vs: seq<Violation>, r: Raised)
    ensures r in Subjects(device, at, vs)
       <==> r.device == device && r.at == at && exists v :: v in vs && v.alert == r.alert && v.fence == r.fence
  {
    if vs == [] {
    } else {
      SubjectsComeFromReports(device, at, vs[..|vs| - 1], r);
      assert vs == vs[..|vs| - 1] + [vs[|vs| - 1]];
    }
  }

  /** One check's transitions, in the columns of its rows. */
  lemma CheckSaw(es: seq<Event>, r: Raised)
    requires es != [] && es[|es| - 1].Observe? && DistinctRows(ChecksOf(es))
    ensures
      var checks := ChecksOf(es);
      r in Subjects(es[|es| - 1].check.device, Clock(es), ReportsAt(checks, |checks| - 1)) <==> Saw(es, |es| - 1, r)
  {
    var checks := ChecksOf(es);
    var n, c := |checks| - 1, es[|es| - 1].check;
    assert checks[..n] == ChecksOf(es[..|es| - 1]) && checks[n] == c && Clock(es) == Clock(es[..|es| - 1]);
    SubjectsComeFromReports(c.device, Clock(es), ReportsAt(checks, n), r);
    forall v ensures v in ReportsAt(checks, n)
                <==> exists i :: 0 <= i < |c.rows| && Tells(c.rows[i], LastInside(checks[..n], c.device, c.rows[i].fence), v)
    {
      ReportsTellTransitions(checks, n, v);
    }
    if r.device == c.device {
      RowsTell(c, checks[..n], ReportsAt(checks, n), r);
    }
  }

  lemma RowsTell(c: Check, checks: seq<Check>, vs: seq<Violation>, r: Raised)
    requires forall v :: v in vs <==> exists i :: 0 <= i < |c.rows| && Tells(c.rows[i], LastInside(checks, c.device, c.rows[i].fence), v)
    requires r.device == c.device
    ensures (exists v :: v in vs && v.alert == r.alert && v.fence == r.fence)
       <==> exists row :: row in c.rows && row.fence == r.fence
                          && match r.alert
                             case GeofenceExit =>
                               && row.fenceType != Some(ForbiddenZone) && row.isInside != Some(true)
                               && LastInside(checks, r.device, r.fence) != Some(false)
                             case GeofenceEntry =>
                               && row.fenceType == Some(ForbiddenZone) && row.isInside == Some(true)
                               && LastInside(checks, r.device, r.fence) != Some(true)
  {
    var before := LastInside(checks, r.device, r.fence);
    var v := Violation(r.fence, r.alert, if r.alert == GeofenceExit then Outside else Inside, Shown(before));
    assert v in vs <==> exists i :: 0 <= i < |c.rows| && Tells(c.rows[i], LastInside(checks, c.device, c.rows[i].fence), v);
  }

  /**
   * Over every run: an alert or a suppressed transition says what a check saw, and nothing a check saw is
   * missing among them. An exit is a zone that is not forbidden with the device now outside, an entry a
   * forbidden zone with the device now inside, each seen on the other side before or for the first time.
   */
  lemma {:induction false} AlertsSayWhatChecksSaw(es: seq<Event>, r: Raised)
    requires DistinctRows(ChecksOf(es))
    ensures r in Run(es).alerts || r in Run(es).suppressed <==> exists m :: Saw(es, m, r)
  {
    RaisedOrSuppressedExactly(es, r);
    TransitionsAreSeen(es, r);
  }

  lemma SawEarlier(es: seq<Event>, m: nat, r: Raised)
    requires m < |es| - 1
    ensures Saw(es[..|es| - 1], m, r) <==> Saw(es, m, r)
  {
    assert es[..|es| - 1][..m] == es[..m];
  }

  lemma {:induction false} TransitionsAreSeen(es: seq<Event>, r: Raised)
    requires DistinctRows(ChecksOf(es))
    ensures r in Transitions(es) <==> exists m :: Saw(es, m, r)
  {
    hide Saw, Subjects, ReportsAt;
    if es == [] {
      NothingSeen(r);
    } else {
      var init, last := es[..|es| - 1], es[|es| - 1];
      assert DistinctRows(ChecksOf(init)) by {
        assert forall n :: 0 <= n < |ChecksOf(init)| ==> ChecksOf(init)[n] == ChecksOf(es)[n];
      }
      TransitionsAreSeen(init, r);
      SeenNowOrEarlier(es, init, r);
      match last
      case Tick(_) =>
        TicksSeeNothing(es, r);
      case Observe(c) =>
        CheckSaw(es, r);
    }
  }

  lemma NothingSeen(r: Raised)
    ensures !exists m :: Saw([], m, r)
  {
  }

  lemma TicksSeeNothing(es: seq<Event>, r: Raised)
    requires es != [] && es[|es| - 1].Tick?
    ensures !Saw(es, |es| - 1, r)
  {
  }

  lemma SeenNowOrEarlier(es: seq<Event>, init: seq<Event>, r: Raised)
    requires es != [] && init == es[..|es| - 1]
    ensures (exists m :: Saw(es, m, r)) <==> Saw(es, |es| - 1, r) || exists m :: Saw(init, m, r)
  {
    if m: nat :| Saw(es, m, r) {
      if m < |es| - 1 {
        SawEarlier(es, m, r);
      }
    }
    if m: nat :| Saw(init, m, r) {
      SawEarlier(es, m, r);
    }
  }
}
