/**
 * The offline sweep without the atomicity OfflineSweep assumes: it finds the stale rows first and then
 * saves them one by one, while heartbeats, queries and other sweeps go on.
 */
module SweepRaces {
  import opened Base
  import opened OfflineSweep

  type SweepId = nat

  /** A sweep: when its query ran, the rows it found, and the devices it has yet to save. */
  datatype Found = Found(at: int, rows: Rows, todo: set<string>)

  datatype RaceState = RaceState(now: int, rows: Rows, sweeps: map<SweepId, Found>)

  /** A sweep that dies on the way simply saves no more. */
  datatype RaceEvent =
    | FindStale(sweep: SweepId)
    | SaveOne(sweep: SweepId, device: string, stamps: bool)
    | Other(e: OfflineSweep.Event)

  const START := RaceState(0, map[], map[])

  function FoundNow(rows: Rows, now: int): Found {
    var stale := StaleDevices(rows, now);
    Found(now, map d | d in stale :: rows[d], stale)
  }

  function Plain(s: RaceState): OfflineSweep.State {
    State(s.now, s.rows, None)
  }

  /** A save writes the row as it was found, with the status OFFLINE. */
  function RaceStep(s: RaceState, e: RaceEvent): RaceState {
    match e
    case FindStale(k) => if k in s.sweeps then s else s.(sweeps := s.sweeps[k := FoundNow(s.rows, s.now)])
    case SaveOne(k, d, stamps) =>
      if k !in s.sweeps || d !in s.sweeps[k].todo || d !in s.sweeps[k].rows then s
      else
        var f := s.sweeps[k];
        s.(rows := Save(s.rows, d, Offline, f.rows[d].readings, stamps, s.now),
           sweeps := s.sweeps[k := f.(todo := f.todo - {d})])
    case Other(e) =>
      if e.DoSweep? then s
      else
        var t := OfflineSweep.Step(Plain(s), e);
        s.(now := t.now, rows := t.rows)
  }

  function RaceRun(es: seq<RaceEvent>): RaceState {
    if es == [] then START else RaceStep(RaceRun(es[..|es| - 1]), es[|es| - 1])
  }

  // ----- How old an ONLINE row can be -----

  /** What a sweep has found or will yet save: its rows were stale, and every other ONLINE row is recent. */
  ghost predicate SweepInv(s: RaceState, f: Found) {
    && f.at <= s.now
    && f.todo <= f.rows.Keys
    && (forall d :: d in f.rows ==> Stale(f.rows[d], f.at))
    && (forall d :: d in s.rows && s.rows[d].status == Online ==> d in f.todo || f.at - STALE_AFTER <= s.rows[d].updatedAt)
  }

  ghost predicate RowsInv(s: RaceState) {
    forall d :: d in s.rows ==> s.rows[d].updatedAt <= s.now
  }

  ghost predicate RaceInv(s: RaceState) {
    RowsInv(s) && forall k :: k in s.sweeps ==> SweepInv(s, s.sweeps[k])
  }

  lemma StepKeepsRows(s: RaceState, e: RaceEvent)
    requires RowsInv(s)
    ensures RowsInv(RaceStep(s, e))
  {
  }

  lemma StepKeepsSweep(s: RaceState, e: RaceEvent, k: SweepId)
    requires RowsInv(s) && k in RaceStep(s, e).sweeps
    requires k in s.sweeps ==> SweepInv(s, s.sweeps[k])
    ensures SweepInv(RaceStep(s, e), RaceStep(s, e).sweeps[k])
  {
  }

  lemma {:induction false} RunKeepsRaceInv(es: seq<RaceEvent>)
    ensures RaceInv(RaceRun(es))
  {
    if es == [] {
    } else {
      var s, e := RaceRun(es[..|es| - 1]), es[|es| - 1];
      RunKeepsRaceInv(es[..|es| - 1]);
      StepKeepsRows(s, e);
      forall k | k in RaceStep(s, e).sweeps ensures SweepInv(RaceStep(s, e), RaceStep(s, e).sweeps[k]) {
        StepKeepsSweep(s, e, k);
      }
    }
  }

  /**
   * In every interleaving: if some sweep has finished whose query ran at most 60 s plus `duration` ago,
   * no ONLINE row is more than 360 s plus `duration` old. `duration` is how long sweeps may take.
   */
  lemma FinishedSweepsKeepRowsRecent(es: seq<RaceEvent>, k: SweepId, duration: nat, device: string)
    requires k in RaceRun(es).sweeps && RaceRun(es).sweeps[k].todo == {}
    requires RaceRun(es).now - RaceRun(es).sweeps[k].at <= SWEEP_PERIOD + duration
    requires device in RaceRun(es).rows && RaceRun(es).rows[device].status == Online
    ensures RaceRun(es).now - RaceRun(es).rows[device].updatedAt <= 360 * MS + duration
  {
    RunKeepsRaceInv(es);
    assert SweepInv(RaceRun(es), RaceRun(es).sweeps[k]);
  }

  // ----- What a save overwrites -----

  /** The event writes the device's row. */
  predicate WritesRow(s: RaceState, e: RaceEvent, device: string) {
    match e
    case FindStale(_) => false
    case SaveOne(k, d, stamps) =>
      && d == device && k in s.sweeps && d in s.sweeps[k].todo && d in s.sweeps[k].rows
      && !IsSilent(s.rows, d, Offline, s.sweeps[k].rows[d].readings, stamps)
    case Other(e) => !e.DoSweep? && Writes(Plain(s), e, device)
  }

  /** The row has been written since sweep k found it. */
  predicate WrittenSince(es: seq<RaceEvent>, k: SweepId, device: string) {
    es != []
    && var s := RaceRun(es[..|es| - 1]);
       k in s.sweeps && (WritesRow(s, es[|es| - 1], device) || WrittenSince(es[..|es| - 1], k, device))
  }

  /** The row is as the sweep found it, or newer than its query. */
  ghost predicate AsFoundUnless(s: RaceState, f: Found, device: string, written: bool) {
    device in f.rows && device in s.rows
    && if written then f.at <= s.rows[device].updatedAt else s.rows[device] == f.rows[device]
  }

  lemma StepTracksWrites(s: RaceState, e: RaceEvent, k: SweepId, device: string, written: bool)
    requires RowsInv(s) && k in RaceStep(s, e).sweeps && device in RaceStep(s, e).sweeps[k].todo
    requires k in s.sweeps ==> SweepInv(s, s.sweeps[k]) && AsFoundUnless(s, s.sweeps[k], device, written)
    ensures
      var t := RaceStep(s, e);
      AsFoundUnless(t, t.sweeps[k], device, k in s.sweeps && (WritesRow(s, e, device) || written))
  {
  }

  lemma TodoShrinks(s: RaceState, e: RaceEvent, k: SweepId)
    requires k in s.sweeps
    ensures k in RaceStep(s, e).sweeps && RaceStep(s, e).sweeps[k].todo <= s.sweeps[k].todo
  {
  }

  lemma {:induction false} RunTracksWrites(es: seq<RaceEvent>, k: SweepId, device: string)
    requires k in RaceRun(es).sweeps && device in RaceRun(es).sweeps[k].todo
    ensures AsFoundUnless(RaceRun(es), RaceRun(es).sweeps[k], device, WrittenSince(es, k, device))
  {
    hide RaceStep, SweepInv, WritesRow, AsFoundUnless;
    if es == [] {
    } else {
      var init, e := es[..|es| - 1], es[|es| - 1];
      var s := RaceRun(init);
      RunKeepsRaceInv(init);
      if k in s.sweeps {
        TodoShrinks(s, e, k);
        RunTracksWrites(init, k, device);
      }
      StepTracksWrites(s, e, k, device, WrittenSince(init, k, device));
    }
  }

  /**
   * Exactly when a save loses something. The row a sweep is about to save has changed since its query if
   * and only if some event wrote it in between; then a newer row is replaced by OFFLINE with the readings
   * found earlier, otherwise the save does what the sweep in one step does.
   */
  lemma SaveLosesAWriteExactlyWhen(es: seq<RaceEvent>, k: SweepId, device: string, stamps: bool)
    requires k in RaceRun(es).sweeps && device in RaceRun(es).sweeps[k].todo
    ensures
      var s, t := RaceRun(es), RaceStep(RaceRun(es), SaveOne(k, device, stamps));
      && device in s.rows && device in t.rows && device in s.sweeps[k].rows
      && t.rows[device].status == Offline && t.rows[device].readings == s.sweeps[k].rows[device].readings
      && (s.rows[device] != s.sweeps[k].rows[device] <==> WrittenSince(es, k, device))
      && (WrittenSince(es, k, device) ==> s.sweeps[k].at <= s.rows[device].updatedAt)
      && (!WrittenSince(es, k, device) ==> t.rows[device] == Sweep(s.rows, s.now)[device])
  {
    RunKeepsRaceInv(es);
    RunTracksWrites(es, k, device);
    var s := RaceRun(es);
    assert SweepInv(s, s.sweeps[k]) && Stale(s.sweeps[k].rows[device], s.sweeps[k].at);
  }

  /** A device that reports between the query and its save is OFFLINE all the same, its report overwritten. */
  lemma ReportDuringSweepIsLost(s: RaceState, k: SweepId, device: string, r: Report, stamps: bool)
    requires k !in s.sweeps && device in s.rows && Stale(s.rows[device], s.now)
    ensures
      var found := RaceStep(s, FindStale(k));
      var reported := RaceStep(found, Other(Heartbeat(device, Online, r, true)));
      var saved := RaceStep(reported, SaveOne(k, device, stamps));
      && reported.rows[device].status == Online && reported.rows[device].updatedAt == s.now
      && saved.rows[device] == Row(Offline, s.rows[device].readings, s.now)
  {
    assert FoundNow(s.rows, s.now).rows[device] == s.rows[device];
  }

  // ----- Run without interruption, the split sweep is the sweep -----

  function SaveAll(s: RaceState, k: SweepId, order: seq<string>): RaceState {
    if order == [] then s
    else RaceStep(SaveAll(s, k, order[..|order| - 1]), SaveOne(k, order[|order| - 1], true))
  }

  lemma {:induction false} SavingMarks(s: RaceState, k: SweepId, order: seq<string>, done: set<string>)
    requires k in s.sweeps && s.sweeps[k] == FoundNow(s.rows, s.now)
    requires Lists(order, done) && done <= StaleDevices(s.rows, s.now)
    ensures
      var t := SaveAll(s, k, order);
      && t.rows == Marked(s.rows, done, s.now) && t.now == s.now
      && k in t.sweeps && t.sweeps[k] == s.sweeps[k].(todo := s.sweeps[k].todo - done)
    decreases |order|
  {
    if order == [] {
      NothingListed(done);
      assert Marked(s.rows, {}, s.now) == s.rows;
    } else {
      var init, d := order[..|order| - 1], order[|order| - 1];
      ListWithoutLast(order, done);
      SavingMarks(s, k, init, done - {d});
      MarkOneMore(s.rows, done - {d}, d, s.now);
      assert done - {d} + {d} == done;
    }
  }

  lemma NothingListed(done: set<string>)
    requires Lists([], done)
    ensures done == {}
  {
    assert forall d :: d in done ==> d in multiset(done);
  }

  lemma ListWithoutLast(order: seq<string>, done: set<string>)
    requires order != [] && Lists(order, done)
    ensures order[|order| - 1] in done && Lists(order[..|order| - 1], done - {order[|order| - 1]})
  {
    var init, d := order[..|order| - 1], order[|order| - 1];
    assert order == init + [d];
    assert d in multiset(order) && d in multiset(done);
    assert multiset(init) == multiset(order) - multiset{d};
    assert multiset(done - {d}) == multiset(done) - multiset{d};
  }

  /** The query followed by a save of each row found, in any order, is the sweep of one step. */
  lemma UninterruptedSweep(s: RaceState, k: SweepId, order: seq<string>)
    requires k !in s.sweeps && Lists(order, StaleDevices(s.rows, s.now))
    ensures
      var t := SaveAll(RaceStep(s, FindStale(k)), k, order);
      t.rows == Sweep(s.rows, s.now) && k in t.sweeps && t.sweeps[k].todo == {}
  {
    SavingMarks(RaceStep(s, FindStale(k)), k, order, StaleDevices(s.rows, s.now));
    MarkingStaleIsSweeping(s.rows, s.now);
  }
}
