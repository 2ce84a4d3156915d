/**
 * The offline sweep (OfflineDetectorService) and the heartbeats that compete with it
 * (DeviceStatusService), over one status row per device.
 */
module OfflineSweep {
  import opened Base

  datatype Status = Online | Offline | Maintenance

  datatype Readings = Readings(battery: int, camera: bool, gnss: bool, satellites: int, signal: int)

  /** What a heartbeat carries; satellites and signal are optional. */
  datatype Report = Report(battery: int, camera: bool, gnss: bool, satellites: Option<int>, signal: Option<int>)

  datatype Row = Row(status: Status, readings: Readings, updatedAt: int)

  /** The column defaults. */
  const BLANK := Readings(0, false, false, 0, 0)

  /** Object.assign, then a save that skips undefined columns. */
  function Merge(stored: Readings, r: Report): Readings {
    Readings(r.battery, r.camera, r.gnss,
             if r.satellites.Some? then r.satellites.value else stored.satellites,
             if r.signal.Some? then r.signal.value else stored.signal)
  }

  type Rows = map<string, Row>

  const STALE_AFTER := 5 * 60 * MS
  const SWEEP_PERIOD := 60 * MS

  /** status = ONLINE AND updated_at < now - 5 minutes */
  predicate Stale(r: Row, now: int) {
    r.status == Online && r.updatedAt < now - STALE_AFTER
  }

  function StaleDevices(rows: Rows, now: int): set<string> {
    set d | d in rows && Stale(rows[d], now)
  }

  /** Saving a changed row stamps its update time. */
  function Sweep(rows: Rows, now: int): Rows {
    map d | d in rows :: if Stale(rows[d], now) then rows[d].(status := Offline, updatedAt := now) else rows[d]
  }

  function StoredReadings(rows: Rows, device: string): Readings {
    if device in rows then rows[device].readings else BLANK
  }

  /** Saving a row whose columns are as stored; whether the update time is stamped is the mapper's choice. */
  predicate IsSilent(rows: Rows, device: string, status: Status, readings: Readings, stamps: bool) {
    device in rows && rows[device].status == status && rows[device].readings == readings && !stamps
  }

  function Save(rows: Rows, device: string, status: Status, readings: Readings, stamps: bool, now: int): Rows {
    if IsSilent(rows, device, status, readings, stamps) then rows else rows[device := Row(status, readings, now)]
  }

  /** A heartbeat inserts the row or changes what it carries. */
  function Upsert(rows: Rows, device: string, status: Status, report: Report, stamps: bool, now: int): Rows {
    Save(rows, device, status, Merge(StoredReadings(rows, device), report), stamps, now)
  }

  /** A status query for a device without a row stores an OFFLINE one. */
  function EnsureRow(rows: Rows, device: string, now: int): Rows {
    if device in rows then rows else rows[device := Row(Offline, BLANK, now)]
  }

  // ----- Runs -----

  datatype State = State(now: int, rows: Rows, lastSweep: Option<int>)

  datatype Event =
    | Heartbeat(device: string, status: Status, report: Report, stamps: bool)
    | Query(device: string)
    | DoSweep
    | Tick(elapsed: nat)

  const INIT := State(0, map[], None)

  function Step(s: State, e: Event): State {
    match e
    case Heartbeat(d, status, report, stamps) => s.(rows := Upsert(s.rows, d, status, report, stamps, s.now))
    case Query(d) => s.(rows := EnsureRow(s.rows, d, s.now))
    case DoSweep => s.(rows := Sweep(s.rows, s.now), lastSweep := Some(s.now))
    case Tick(d) => s.(now := s.now + d)
  }

  function Run(es: seq<Event>): State {
    if es == [] then INIT else Step(Run(es[..|es| - 1]), es[|es| - 1])
  }

  /** Rows that are ONLINE were updated no longer than five minutes before the latest sweep. */
  ghost predicate Inv(s: State) {
    && (s.lastSweep.Some? ==> s.lastSweep.value <= s.now)
    && forall d :: d in s.rows ==>
         && s.rows[d].updatedAt <= s.now
         && (s.lastSweep.Some? && s.rows[d].status == Online ==> s.lastSweep.value - STALE_AFTER <= s.rows[d].updatedAt)
  }

  lemma {:induction false} RunKeepsInv(es: seq<Event>)
    ensures Inv(Run(es))
  {
    if es == [] {
    } else {
      RunKeepsInv(es[..|es| - 1]);
    }
  }

  /** While the latest sweep is at most 60 s old, no ONLINE row is more than 360 s old. */
  lemma OnlineRowsAreRecent(es: seq<Event>, device: string)
    requires device in Run(es).rows && Run(es).rows[device].status == Online
    requires Run(es).lastSweep.Some? && Run(es).now - Run(es).lastSweep.value <= 60000
    ensures Run(es).now - Run(es).rows[device].updatedAt <= 360000
  {
    RunKeepsInv(es);
  }

  /** Sweeps come at least every 60 s, counted from the first one. */
  ghost predicate Punctual(es: seq<Event>) {
    forall n :: 0 <= n <= |es| ==> RecentlySwept(Run(es[..n]))
  }

  ghost predicate RecentlySwept(s: State) {
    s.lastSweep.Some? ==> s.now - s.lastSweep.value <= SWEEP_PERIOD
  }

  /** In every run with punctual sweeps, from the first sweep on, at every moment. */
  lemma PunctualSweepsKeepRowsRecent(es: seq<Event>, n: nat, device: string)
    requires Punctual(es) && n <= |es| && Run(es[..n]).lastSweep.Some?
    requires device in Run(es[..n]).rows && Run(es[..n]).rows[device].status == Online
    ensures Run(es[..n]).now - Run(es[..n]).rows[device].updatedAt <= 360 * MS
  {
    assert RecentlySwept(Run(es[..n]));
    OnlineRowsAreRecent(es[..n], device);
  }

  /** The bound is tight: a row may be ONLINE and exactly 360 s old. */
  lemma RecencyBoundIsTight(device: string, r: Report)
    ensures
      var s := Run([Heartbeat(device, Online, r, true), Tick(STALE_AFTER), DoSweep, Tick(SWEEP_PERIOD)]);
      && device in s.rows && s.rows[device].status == Online && RecentlySwept(s) && s.lastSweep.Some?
      && s.now - s.rows[device].updatedAt == 360 * MS
  {
    var e1 := [Heartbeat(device, Online, r, true)];
    var e2 := e1 + [Tick(STALE_AFTER)];
    var e3 := e2 + [DoSweep];
    assert [] + e1 == e1;
    RunOneMore([], e1[0]);
    RunOneMore(e1, Tick(STALE_AFTER));
    RunOneMore(e2, DoSweep);
    RunOneMore(e3, Tick(SWEEP_PERIOD));
    assert e3 + [Tick(SWEEP_PERIOD)]
        == [Heartbeat(device, Online, r, true), Tick(STALE_AFTER), DoSweep, Tick(SWEEP_PERIOD)];
  }

  lemma RunOneMore(es: seq<Event>, e: Event)
    ensures Run(es + [e]) == Step(Run(es), e)
  {
    assert (es + [e])[..|es|] == es;
  }

  // ----- What the sweep calls inactive -----

  /** The event writes the device's row, and so stamps its update time. */
  predicate Writes(s: State, e: Event, device: string) {
    match e
    case Heartbeat(d, status, report, stamps) =>
      d == device && !IsSilent(s.rows, d, status, Merge(StoredReadings(s.rows, d), report), stamps)
    case Query(d) => d == device && d !in s.rows
    case DoSweep => device in s.rows && Stale(s.rows[device], s.now)
    case Tick(_) => false
  }

  /** When the device's row was last written. */
  function LastWrite(es: seq<Event>, device: string): Option<int> {
    if es == [] then None
    else if Writes(Run(es[..|es| - 1]), es[|es| - 1], device) then Some(Run(es[..|es| - 1]).now)
    else LastWrite(es[..|es| - 1], device)
  }

  /** When the device last reported its status, whatever it reported. */
  function LastReport(es: seq<Event>, device: string): Option<int> {
    if es == [] then None
    else if es[|es| - 1].Heartbeat? && es[|es| - 1].device == device then Some(Run(es[..|es| - 1]).now)
    else LastReport(es[..|es| - 1], device)
  }

  /** A row's update time is the time of the last event that wrote it. */
  lemma {:induction false} UpdatedAtIsLastWrite(es: seq<Event>, device: string)
    ensures device in Run(es).rows <==> LastWrite(es, device).Some?
    ensures device in Run(es).rows ==> LastWrite(es, device) == Some(Run(es).rows[device].updatedAt)
  {
    if es == [] {
    } else {
      UpdatedAtIsLastWrite(es[..|es| - 1], device);
    }
  }

  /** A sweep at this moment would mark the device OFFLINE. */
  predicate Marks(s: State, device: string) {
    device in s.rows && s.rows[device].status == Online && Sweep(s.rows, s.now)[device].status == Offline
  }

  /** Over every run: a sweep marks exactly the ONLINE devices whose row was last written more than 300 s ago. */
  lemma SweepMarksExactly(es: seq<Event>, device: string)
    requires device in Run(es).rows
    ensures LastWrite(es, device).Some?
    ensures Marks(Run(es), device)
       <==> Run(es).rows[device].status == Online && LastWrite(es, device).value < Run(es).now - 300000
  {
    UpdatedAtIsLastWrite(es, device);
  }

  /**
   * "No status report for five minutes" is what the sweep promises. Exactly when it marks a device that
   * has reported within them: the device is ONLINE and none of those reports wrote its row.
   */
  lemma MarkedDespiteReportExactlyWhen(es: seq<Event>, device: string)
    requires LastReport(es, device).Some? && Run(es).now - 300000 <= LastReport(es, device).value
    ensures device in Run(es).rows && LastWrite(es, device).Some?
    ensures Marks(Run(es), device)
       <==> Run(es).rows[device].status == Online && LastWrite(es, device).value < Run(es).now - 300000
  {
    ReportedDevicesHaveRows(es, device);
    SweepMarksExactly(es, device);
  }

  lemma {:induction false} ReportedDevicesHaveRows(es: seq<Event>, device: string)
    requires LastReport(es, device).Some?
    ensures device in Run(es).rows
  {
    var init, last := es[..|es| - 1], es[|es| - 1];
    if !(last.Heartbeat? && last.device == device) {
      ReportedDevicesHaveRows(init, device);
    }
  }

  /** If every report writes the row, the promise is kept. */
  lemma {:induction false} WritingReportsCount(es: seq<Event>, device: string)
    requires forall n :: 0 <= n < |es| && es[n].Heartbeat? && es[n].device == device ==> Writes(Run(es[..n]), es[n], device)
    requires LastReport(es, device).Some?
    ensures LastWrite(es, device).Some? && LastReport(es, device).value <= LastWrite(es, device).value
  {
    var init, last := es[..|es| - 1], es[|es| - 1];
    if !(last.Heartbeat? && last.device == device) {
      forall n | 0 <= n < |init| && init[n].Heartbeat? && init[n].device == device
        ensures Writes(Run(init[..n]), init[n], device)
      {
        assert init[..n] == es[..n];
      }
      WritingReportsCount(init, device);
      RunKeepsInv(init);
      UpdatedAtIsLastWrite(init, device);
    }
  }

  /** It can fail: a device that repeats its report after five minutes is marked OFFLINE one millisecond later. */
  lemma SilentReportDoesNotCount(device: string, r: Report)
    ensures
      var es := [Heartbeat(device, Online, r, true), Tick(STALE_AFTER), Heartbeat(device, Online, r, false), Tick(1)];
      && Marks(Run(es), device) && LastReport(es, device) == Some(Run(es).now - 1)
  {
    assert Run([]) == INIT;
    var e1 := [Heartbeat(device, Online, r, true)];
    var e2 := e1 + [Tick(STALE_AFTER)];
    var e3 := e2 + [Heartbeat(device, Online, r, false)];
    var es := e3 + [Tick(1)];
    assert es == [Heartbeat(device, Online, r, true), Tick(STALE_AFTER), Heartbeat(device, Online, r, false), Tick(1)];
    assert es[..3] == e3 && e3[..2] == e2;
    assert LastReport(es, device) == LastReport(e3, device) == Some(Run(e2).now);
    hide Run, LastReport;
    RunOneMore([], e1[0]);
    assert [] + e1 == e1;
    RunOneMore(e1, Tick(STALE_AFTER));
    RunOneMore(e2, Heartbeat(device, Online, r, false));
    RunOneMore(e3, Tick(1));
  }

  // ----- What the sweep leaves alone -----

  /** The status the device last reported. */
  function LastSaid(es: seq<Event>, device: string): Option<Status> {
    if es == [] then None
    else if es[|es| - 1].Heartbeat? && es[|es| - 1].device == device then Some(es[|es| - 1].status)
    else LastSaid(es[..|es| - 1], device)
  }

  /** MAINTENANCE is exactly what the device last said, ONLINE never anything else, whatever sweeps and queries do. */
  lemma {:induction false} OnlySweepsOverrule(es: seq<Event>, device: string)
    ensures
      var rows, said := Run(es).rows, LastSaid(es, device);
      && (said.Some? ==> device in rows)
      && (device in rows && rows[device].status == Maintenance <==> said == Some(Maintenance))
      && (device in rows && rows[device].status == Online ==> said == Some(Online))
      && (said == Some(Offline) ==> rows[device].status == Offline)
  {
    if es == [] {
    } else {
      OnlySweepsOverrule(es[..|es| - 1], device);
    }
  }

  /** A row that is not ONLINE stays as it is until the device's next heartbeat. */
  lemma {:induction false} RestingRowsStay(es: seq<Event>, more: seq<Event>, device: string)
    requires device in Run(es).rows && Run(es).rows[device].status != Online
    requires forall n :: 0 <= n < |more| ==> !(more[n].Heartbeat? && more[n].device == device)
    ensures device in Run(es + more).rows && Run(es + more).rows[device] == Run(es).rows[device]
    decreases |more|
  {
    if more == [] {
      assert es + more == es;
    } else {
      RestingRowsStay(es, more[..|more| - 1], device);
      assert (es + more)[..|es + more| - 1] == es + more[..|more| - 1];
    }
  }

  // ----- The services -----

  datatype Broadcast = Broadcast(device: string, status: Status, readings: Readings)

  /** An OFFLINE broadcast with its stored readings for each device of a list. */
  function News(devices: seq<string>, rows: Rows): (news: seq<Broadcast>)
    requires forall d :: d in devices ==> d in rows
    ensures |news| == |devices|
  {
    seq(|devices|, i requires 0 <= i < |devices| => Broadcast(devices[i], Offline, rows[devices[i]].readings))
  }

  /** The list names each device of the set once, in some order. */
  ghost predicate Lists(order: seq<string>, devices: set<string>) {
    multiset(order) == multiset(devices)
  }

  ghost predicate AnnouncesStale(news: seq<Broadcast>, rows: Rows, now: int) {
    exists order :: Lists(order, StaleDevices(rows, now)) && (forall d :: d in order ==> d in rows) && news == News(order, rows)
  }

  lemma ListOneMore(order: seq<string>, done: set<string>, rows: Rows, d: string)
    requires Lists(order, done) && d !in done && d in rows && forall x :: x in order ==> x in rows
    ensures Lists(order + [d], done + {d})
    ensures forall x :: x in order + [d] ==> x in rows
    ensures News(order + [d], rows) == News(order, rows) + [Broadcast(d, Offline, rows[d].readings)]
  {
    assert multiset(done + {d}) == multiset(done) + multiset{d};
  }

  /** The rows once these devices have been marked. */
  function Marked(rows: Rows, devices: set<string>, now: int): Rows {
    map d | d in rows :: if d in devices then rows[d].(status := Offline, updatedAt := now) else rows[d]
  }

  lemma MarkOneMore(rows: Rows, devices: set<string>, d: string, now: int)
    requires d in rows && d !in devices
    ensures d in Marked(rows, devices, now) && Marked(rows, devices, now)[d].readings == rows[d].readings
    ensures Marked(rows, devices, now)[d := Marked(rows, devices, now)[d].(status := Offline, updatedAt := now)]
         == Marked(rows, devices + {d}, now)
  {
  }

  lemma MarkingStaleIsSweeping(rows: Rows, now: int)
    ensures Marked(rows, StaleDevices(rows, now), now) == Sweep(rows, now)
  {
  }

  /** The sweep has marked and announced the devices done so far, in this order, after what was sent before. */
  ghost predicate Progress(before: Rows, done: set<string>, order: seq<string>, now: int, sent: seq<Broadcast>,
                           rows: Rows, broadcasts: seq<Broadcast>)
  {
    && rows == Marked(before, done, now)
    && Lists(order, done) && (forall d :: d in order ==> d in before)
    && broadcasts == sent + News(order, before)
  }

  lemma NothingAnnounced(rows: Rows, now: int, sent: seq<Broadcast>)
    ensures Progress(rows, {}, [], now, sent, rows, sent)
  {
  }

  lemma SweptRows(rows: Rows, now: int)
    ensures Sweep(rows, now).Keys == rows.Keys
    ensures forall d :: d in rows ==>
              Sweep(rows, now)[d] == if rows[d].status == Online && rows[d].updatedAt < now - 300000
                                     then Row(Offline, rows[d].readings, now) else rows[d]
  {
  }

  /** Once every stale device is done, the sweep is complete. */
  lemma AllAnnounced(before: Rows, order: seq<string>, now: int, sent: seq<Broadcast>, rows: Rows, broadcasts: seq<Broadcast>)
    requires Progress(before, StaleDevices(before, now), order, now, sent, rows, broadcasts)
    ensures rows == Sweep(before, now)
    ensures |sent| <= |broadcasts| && broadcasts[..|sent|] == sent
    ensures AnnouncesStale(broadcasts[|sent|..], before, now)
  {
    MarkingStaleIsSweeping(before, now);
    assert broadcasts[|sent|..] == News(order, before);
  }

  /** Each device at most once, as OFFLINE with its readings, and exactly the ONLINE ones not written for 300 s. */
  ghost predicate Announces(news: seq<Broadcast>, rows: Rows, now: int) {
    && (forall j, k :: 0 <= j < k < |news| ==> news[j].device != news[k].device)
    && (forall k :: 0 <= k < |news| ==>
          && news[k].device in rows && news[k].status == Offline && news[k].readings == rows[news[k].device].readings
          && rows[news[k].device].status == Online && rows[news[k].device].updatedAt < now - 300000)
    && (forall d :: d in rows && rows[d].status == Online && rows[d].updatedAt < now - 300000 ==>
          exists k :: 0 <= k < |news| && news[k].device == d)
  }

  lemma ListsOnce(order: seq<string>, devices: set<string>)
    requires Lists(order, devices)
    ensures forall d :: d in order <==> d in devices
    ensures forall j, k :: 0 <= j < k < |order| ==> order[j] != order[k]
  {
    assert forall d :: d in order <==> d in multiset(order);
    assert forall d :: d in devices <==> d in multiset(devices);
    forall j, k | 0 <= j < k < |order| ensures order[j] != order[k] {
      assert order == order[..k] + [order[k]] + order[k + 1..];
      assert multiset(order) == multiset(order[..k]) + multiset{order[k]} + multiset(order[k + 1..]);
      assert order[..k][j] == order[j] && order[j] in multiset(order[..k]);
      assert multiset(devices)[order[k]] == 1;
    }
  }

  lemma AnnouncingStale(news: seq<Broadcast>, rows: Rows, now: int)
    requires AnnouncesStale(news, rows, now)
    ensures Announces(news, rows, now)
  {
    var order :| Lists(order, StaleDevices(rows, now)) && (forall d :: d in order ==> d in rows) && news == News(order, rows);
    ListsOnce(order, StaleDevices(rows, now));
    hide Lists;
    assert forall k :: 0 <= k < |news| ==>
             news[k] == Broadcast(order[k], Offline, rows[order[k]].readings) && order[k] in order;
    forall k | 0 <= k < |news| ensures order[k] in StaleDevices(rows, now) {
      assert order[k] in order;
    }
    forall d | d in rows && rows[d].status == Online && rows[d].updatedAt < now - 300000
      ensures exists k :: 0 <= k < |news| && news[k].device == d
    {
      assert d in order;
      var k :| 0 <= k < |order| && order[k] == d;
      assert news[k].device == d;
    }
  }

  class StatusServices {
    var rows: Rows
    var broadcasts: seq<Broadcast>

    constructor ()
      ensures rows == map[] && broadcasts == []
    {
      rows, broadcasts := map[], [];
    }

    /** DeviceStatusService.upsert */
    method UpsertStatus(device: string, status: Status, report: Report, stamps: bool, now: int)
      modifies this`rows
      ensures rows == Upsert(old(rows), device, status, report, stamps, now)
      ensures device in rows && rows[device].status == status
      ensures forall d :: d != device ==> (d in rows <==> d in old(rows)) && (d in rows ==> rows[d] == old(rows)[d])
      ensures rows[device].updatedAt == now
              || (device in old(rows) && rows[device] == old(rows)[device] && !stamps)
      ensures
        var stored, readings := StoredReadings(old(rows), device), rows[device].readings;
        && readings.battery == report.battery && readings.camera == report.camera && readings.gnss == report.gnss
        && (report.satellites == Some(readings.satellites) || (report.satellites.None? && readings.satellites == stored.satellites))
        && (report.signal == Some(readings.signal) || (report.signal.None? && readings.signal == stored.signal))
    {
      if device !in rows {
        rows := rows[device := Row(status, Merge(BLANK, report), now)];
        return;
      }
      var current := rows[device];
      var readings := current.readings.(battery := report.battery, camera := report.camera, gnss := report.gnss);
      if report.satellites.Some? {
        readings := readings.(satellites := report.satellites.value);
      }
      if report.signal.Some? {
        readings := readings.(signal := report.signal.value);
      }
      var changed := current.status != status || current.readings != readings;
      rows := rows[device := Row(status, readings, if changed || stamps then now else current.updatedAt)];
    }

    /** One round of the sweep's loop: save the row as OFFLINE, then broadcast it. */
    method MarkOffline(device: string, now: int)
      requires device in rows
      modifies this
      ensures rows == old(rows)[device := old(rows)[device].(status := Offline, updatedAt := now)]
      ensures broadcasts == old(broadcasts) + [Broadcast(device, Offline, old(rows)[device].readings)]
    {
      rows := rows[device := rows[device].(status := Offline, updatedAt := now)];
      broadcasts := broadcasts + [Broadcast(device, Offline, rows[device].readings)];
    }

    /** The same round as progress of the sweep. */
    method SweepOne(ghost before: Rows, ghost done: set<string>, ghost order: seq<string>, now: int,
                    ghost sent: seq<Broadcast>, device: string) returns (ghost longer: seq<string>)
      requires Progress(before, done, order, now, sent, rows, broadcasts) && device in before && device !in done
      modifies this
      ensures Progress(before, done + {device}, longer, now, sent, rows, broadcasts)
    {
      MarkOneMore(before, done, device, now);
      ListOneMore(order, done, before, device);
      MarkOffline(device, now);
      longer := order + [device];
    }

    /**
     * Exactly the stale ONLINE rows become OFFLINE; each is broadcast once, with its own readings, and
     * nothing else is. All other rows, OFFLINE and MAINTENANCE ones included, stay as they are.
     */
    method SweepHeartbeats(now: int)
      modifies this
      ensures rows == Sweep(old(rows), now)
      ensures |old(broadcasts)| <= |broadcasts| && broadcasts[..|old(broadcasts)|] == old(broadcasts)
      ensures AnnouncesStale(broadcasts[|old(broadcasts)|..], old(rows), now)
      ensures Announces(broadcasts[|old(broadcasts)|..], old(rows), now)
      ensures rows.Keys == old(rows).Keys
      ensures forall d :: d in rows ==>
                rows[d] == if old(rows)[d].status == Online && old(rows)[d].updatedAt < now - 300000
                           then Row(Offline, old(rows)[d].readings, now) else old(rows)[d]
    {
      ghost var before, stale := rows, StaleDevices(rows, now);
      ghost var order: seq<string> := [];
      var todo := StaleDevices(rows, now);
      NothingAnnounced(before, now, broadcasts);
      hide Progress, AnnouncesStale;
      assert stale - todo == {};
      while todo != {}
        invariant todo <= stale <= before.Keys
        invariant Progress(before, stale - todo, order, now, old(broadcasts), rows, broadcasts)
      {
        var d :| d in todo;
        assert stale - (todo - {d}) == (stale - todo) + {d};
        order := SweepOne(before, stale - todo, order, now, old(broadcasts), d);
        todo := todo - {d};
      }
      assert stale - todo == stale;
      AllAnnounced(before, order, now, old(broadcasts), rows, broadcasts);
      AnnouncingStale(broadcasts[|old(broadcasts)|..], before, now);
      SweptRows(before, now);
    }
  }
}
