/** Geofence transitions: which of a device's fences it has just begun to violate (GeofencesService). */
module Geofences {
  import opened Base

  datatype Presence = Inside | Outside
  datatype FenceType = AllowedZone | ForbiddenZone
  datatype FenceAlert = GeofenceExit | GeofenceEntry

  /** One row of the spatial query; the type column and the ST_Within result may be null. */
  datatype Row = Row(fence: string, fenceType: Option<FenceType>, isInside: Option<bool>)

  datatype Violation = Violation(fence: string, alert: FenceAlert, current: Presence, previous: Option<Presence>)

  /** Last presence seen, per (device, fence). */
  type States = map<(string, string), Presence>

  /** COALESCE(g.type, 'allowed_zone') */
  function TypeOf(row: Row): FenceType {
    if row.fenceType.Some? then row.fenceType.value else AllowedZone
  }

  function Current(row: Row): Presence {
    if row.isInside == Some(true) then Inside else Outside
  }

  /** The presence that violates a fence: outside an allowed zone, inside a forbidden one. */
  function Bad(t: FenceType): Presence {
    if t == AllowedZone then Outside else Inside
  }

  predicate Violates(row: Row) {
    Current(row) == Bad(TypeOf(row))
  }

  function Previous(states: States, device: string, fence: string): Option<Presence> {
    if (device, fence) in states then Some(states[(device, fence)]) else None
  }

  /** At most one report for a row, given the presence stored before it. */
  function Report(states: States, device: string, row: Row): seq<Violation> {
    var previous := Previous(states, device, row.fence);
    if Violates(row) && previous != Some(Current(row))
    then [Violation(row.fence, if TypeOf(row) == AllowedZone then GeofenceExit else GeofenceEntry, Current(row), previous)]
    else []
  }

  /** Row by row, each row reading the presence the earlier rows left behind. */
  function Evaluate(states: States, device: string, rows: seq<Row>): (States, seq<Violation>) {
    if rows == [] then (states, [])
    else
      var (before, reports) := Evaluate(states, device, rows[..|rows| - 1]);
      var row := rows[|rows| - 1];
      (before[(device, row.fence) := Current(row)], reports + Report(before, device, row))
  }

  /** All rows judged against one and the same store. */
  function Filter(states: States, device: string, rows: seq<Row>): seq<Violation> {
    if rows == [] then []
    else Filter(states, device, rows[..|rows| - 1]) + Report(states, device, rows[|rows| - 1])
  }

  ghost predicate DistinctFences(rows: seq<Row>) {
    forall i, j :: 0 <= i < j < |rows| ==> rows[i].fence != rows[j].fence
  }

  /** What the loop leaves in the store. */
  lemma {:induction false} EvaluateStores(states: States, device: string, rows: seq<Row>, d: string, f: string)
    requires DistinctFences(rows)
    ensures
      var after := Evaluate(states, device, rows).0;
      && (forall i :: 0 <= i < |rows| && (d, f) == (device, rows[i].fence) ==> Previous(after, d, f) == Some(Current(rows[i])))
      && ((d != device || forall i :: 0 <= i < |rows| ==> rows[i].fence != f) ==> Previous(after, d, f) == Previous(states, d, f))
  {
    if rows == [] {
    } else {
      EvaluateStores(states, device, rows[..|rows| - 1], d, f);
    }
  }

  /** A device's fences are distinct rows, so the per-row loop reports the same as one filter over the old store. */
  lemma {:induction false} LoopEqualsFilter(states: States, device: string, rows: seq<Row>)
    requires DistinctFences(rows)
    ensures Evaluate(states, device, rows).1 == Filter(states, device, rows)
  {
    if rows == [] {
    } else {
      var init, row := rows[..|rows| - 1], rows[|rows| - 1];
      LoopEqualsFilter(states, device, init);
      EvaluateStores(states, device, init, device, row.fence);
    }
  }

  // ----- Runs of position checks -----

  /** One position check: the device and its fence rows for that position. */
  datatype Check = Check(device: string, rows: seq<Row>)

  function StatesAfter(checks: seq<Check>): States {
    if checks == [] then map[]
    else
      var last := checks[|checks| - 1];
      Evaluate(StatesAfter(checks[..|checks| - 1]), last.device, last.rows).0
  }

  /** The reports of the n-th check of a run. */
  function ReportsAt(checks: seq<Check>, n: nat): seq<Violation>
    requires n < |checks|
  {
    Evaluate(StatesAfter(checks[..n]), checks[n].device, checks[n].rows).1
  }

  predicate Concerns(c: Check, device: string, fence: string) {
    c.device == device && exists i :: 0 <= i < |c.rows| && c.rows[i].fence == fence
  }

  predicate ViolatesAt(c: Check, device: string, fence: string) {
    c.device == device && exists i :: 0 <= i < |c.rows| && c.rows[i].fence == fence && Violates(c.rows[i])
  }

  predicate ReportedIn(reports: seq<Violation>, fence: string) {
    exists i :: 0 <= i < |reports| && reports[i].fence == fence
  }

  /** For each check that concerns the fence: was it violated? */
  function Observed(checks: seq<Check>, device: string, fence: string): seq<bool> {
    if checks == [] then []
    else
      var last := checks[|checks| - 1];
      Observed(checks[..|checks| - 1], device, fence)
      + if Concerns(last, device, fence) then [ViolatesAt(last, device, fence)] else []
  }

  /** For the same checks: was a violation of the fence reported? */
  function Reported(checks: seq<Check>, device: string, fence: string): seq<bool> {
    if checks == [] then []
    else
      var last := checks[|checks| - 1];
      Reported(checks[..|checks| - 1], device, fence)
      + if Concerns(last, device, fence) then [ReportedIn(ReportsAt(checks, |checks| - 1), fence)] else []
  }

  /** Rows within a check are distinct fences, and this fence keeps one type throughout the run. */
  ghost predicate WellFormed(checks: seq<Check>, fence: string, t: FenceType) {
    forall n :: 0 <= n < |checks| ==> WellFormedCheck(checks[n], fence, t)
  }

  ghost predicate WellFormedCheck(c: Check, fence: string, t: FenceType) {
    DistinctFences(c.rows) && forall i :: 0 <= i < |c.rows| && c.rows[i].fence == fence ==> TypeOf(c.rows[i]) == t
  }

  lemma ReportedInEither(a: seq<Violation>, b: seq<Violation>, fence: string)
    ensures ReportedIn(a + b, fence) <==> ReportedIn(a, fence) || ReportedIn(b, fence)
  {
    assert forall i :: 0 <= i < |a| ==> (a + b)[i] == a[i];
    assert forall i :: 0 <= i < |b| ==> (a + b)[|a| + i] == b[i];
  }

  /** The row is of this fence, violates it, and its presence is not the one stored. */
  predicate NewlyViolates(states: States, device: string, row: Row, fence: string) {
    row.fence == fence && Violates(row) && Previous(states, device, fence) != Some(Current(row))
  }

  lemma OneRowReports(states: States, device: string, row: Row, fence: string)
    ensures ReportedIn(Report(states, device, row), fence) <==> NewlyViolates(states, device, row, fence)
  {
    var reports := Report(states, device, row);
    assert reports != [] ==> reports[0].fence == row.fence;
  }

  lemma {:induction false} FilterReports(states: States, device: string, rows: seq<Row>, fence: string)
    ensures ReportedIn(Filter(states, device, rows), fence)
       <==> exists i :: 0 <= i < |rows| && NewlyViolates(states, device, rows[i], fence)
  {
    hide NewlyViolates, Report;
    if rows == [] {
    } else {
      var init, row := rows[..|rows| - 1], rows[|rows| - 1];
      FilterReports(states, device, init, fence);
      OneRowReports(states, device, row, fence);
      ReportedInEither(Filter(states, device, init), Report(states, device, row), fence);
      assert forall i :: 0 <= i < |init| ==> rows[i] == init[i];
    }
  }

  // ----- What the store remembers, whatever the types -----

  /** The presence a check found for a fence. */
  function SeenIn(rows: seq<Row>, fence: string): Option<Presence> {
    if rows == [] then None
    else if rows[|rows| - 1].fence == fence then Some(Current(rows[|rows| - 1]))
    else SeenIn(rows[..|rows| - 1], fence)
  }

  /** The presence found by the latest check of the device that had a row for the fence. */
  function LastPresence(checks: seq<Check>, device: string, fence: string): Option<Presence> {
    if checks == [] then None
    else
      var last := checks[|checks| - 1];
      if last.device == device && SeenIn(last.rows, fence).Some? then SeenIn(last.rows, fence)
      else LastPresence(checks[..|checks| - 1], device, fence)
  }

  lemma {:induction false} EvaluateStoresSeen(states: States, device: string, rows: seq<Row>, d: string, f: string)
    ensures Previous(Evaluate(states, device, rows).0, d, f)
         == if d == device && SeenIn(rows, f).Some? then SeenIn(rows, f) else Previous(states, d, f)
  {
    if rows == [] {
    } else {
      EvaluateStoresSeen(states, device, rows[..|rows| - 1], d, f);
    }
  }

  /** Over every run of checks, fence types changing or not, the store is exactly the last observation. */
  lemma {:induction false} StoreIsLastObservation(checks: seq<Check>, device: string, fence: string)
    ensures Previous(StatesAfter(checks), device, fence) == LastPresence(checks, device, fence)
  {
    hide Evaluate;
    if checks == [] {
    } else {
      var init, last := checks[..|checks| - 1], checks[|checks| - 1];
      StoreIsLastObservation(init, device, fence);
      EvaluateStoresSeen(StatesAfter(init), last.device, last.rows, device, fence);
    }
  }

  /** The type of the row at which a check found the fence. */
  function TypeIn(rows: seq<Row>, fence: string): Option<FenceType> {
    if rows == [] then None
    else if rows[|rows| - 1].fence == fence then Some(TypeOf(rows[|rows| - 1]))
    else TypeIn(rows[..|rows| - 1], fence)
  }

  /** Presence and type come from one and the same row. */
  lemma {:induction false} SeenWithItsType(rows: seq<Row>, fence: string)
    ensures match SeenIn(rows, fence)
            case None => TypeIn(rows, fence).None? && forall i :: 0 <= i < |rows| ==> rows[i].fence != fence
            case Some(p) => exists i :: 0 <= i < |rows| && rows[i].fence == fence && Current(rows[i]) == p
                                        && TypeIn(rows, fence) == Some(TypeOf(rows[i]))
  {
    if rows == [] {
    } else {
      var init := rows[..|rows| - 1];
      SeenWithItsType(init, fence);
      assert rows[|rows| - 1].fence == fence || SeenIn(rows, fence) == SeenIn(init, fence);
      if rows[|rows| - 1].fence != fence && SeenIn(init, fence).Some? {
        var i :| 0 <= i < |init| && init[i].fence == fence && Current(init[i]) == SeenIn(init, fence).value
                 && TypeIn(init, fence) == Some(TypeOf(init[i]));
        assert rows[i] == init[i];
      }
    }
  }

  /**
   * The law without assumptions on types: a check reports a fence exactly when the fence is violated now
   * and the device was last seen on its other side, or never.
   */
  lemma ReportedExactlyWhen(checks: seq<Check>, device: string, fence: string)
    requires checks != [] && Concerns(checks[|checks| - 1], device, fence) && DistinctFences(checks[|checks| - 1].rows)
    ensures
      var init, last := checks[..|checks| - 1], checks[|checks| - 1];
      ReportedIn(ReportsAt(checks, |checks| - 1), fence)
      <==> ViolatesAt(last, device, fence) && LastPresence(init, device, fence) != SeenIn(last.rows, fence)
  {
    var init, last := checks[..|checks| - 1], checks[|checks| - 1];
    StoreIsLastObservation(init, device, fence);
    SeenWithItsType(last.rows, fence);
    LoopEqualsFilter(StatesAfter(init), device, last.rows);
    FilterReports(StatesAfter(init), device, last.rows, fence);
    var i :| 0 <= i < |last.rows| && last.rows[i].fence == fence;
    assert SeenIn(last.rows, fence) == Some(Current(last.rows[i]));
    assert ViolatesAt(last, device, fence) <==> Violates(last.rows[i]);
  }

  /** The last check begins a violation: it violates the fence and the observation before, if any, did not. */
  predicate BeginsViolation(checks: seq<Check>, device: string, fence: string)
    requires checks != []
  {
    var seen := Observed(checks[..|checks| - 1], device, fence);
    ViolatesAt(checks[|checks| - 1], device, fence) && (seen == [] || !seen[|seen| - 1])
  }

  /** The fence's type at the latest check of the device that had a row for it. */
  function LastType(checks: seq<Check>, device: string, fence: string): Option<FenceType> {
    if checks == [] then None
    else
      var last := checks[|checks| - 1];
      if last.device == device && TypeIn(last.rows, fence).Some? then TypeIn(last.rows, fence)
      else LastType(checks[..|checks| - 1], device, fence)
  }

  ghost predicate DistinctRows(checks: seq<Check>) {
    forall n :: 0 <= n < |checks| ==> DistinctFences(checks[n].rows)
  }

  /** Whether a check violates the fence, from the presence and the type it found. */
  lemma SeenAndTypeTellViolation(c: Check, device: string, fence: string)
    requires DistinctFences(c.rows) && c.device == device
    ensures Concerns(c, device, fence) <==> SeenIn(c.rows, fence).Some?
    ensures Concerns(c, device, fence) <==> TypeIn(c.rows, fence).Some?
    ensures Concerns(c, device, fence) ==>
              (ViolatesAt(c, device, fence) <==> SeenIn(c.rows, fence).value == Bad(TypeIn(c.rows, fence).value))
  {
    SeenWithItsType(c.rows, fence);
    if Concerns(c, device, fence) {
      var i :| 0 <= i < |c.rows| && c.rows[i].fence == fence && Some(Current(c.rows[i])) == SeenIn(c.rows, fence)
               && TypeIn(c.rows, fence) == Some(TypeOf(c.rows[i]));
      assert ViolatesAt(c, device, fence) <==> Violates(c.rows[i]);
    }
  }

  /** So does the last observation of a run, whatever the types. */
  lemma {:induction false} LastSeenTellsViolation(checks: seq<Check>, device: string, fence: string)
    requires DistinctRows(checks)
    ensures
      var seen, presence, fenceType :=
        Observed(checks, device, fence), LastPresence(checks, device, fence), LastType(checks, device, fence);
      if seen == [] then presence.None? && fenceType.None?
      else presence.Some? && fenceType.Some? && (seen[|seen| - 1] <==> presence.value == Bad(fenceType.value))
  {
    hide Concerns, ViolatesAt, SeenIn, TypeIn, DistinctFences;
    if checks == [] {
    } else {
      var init, last := checks[..|checks| - 1], checks[|checks| - 1];
      LastSeenTellsViolation(init, device, fence);
      if last.device == device {
        SeenAndTypeTellViolation(last, device, fence);
      } else {
        OtherDevices(last, device, fence);
      }
    }
  }

  /**
   * What changes of a fence's type do, exactly. The beginning of a violation is reported if and only if
   * it is the first observation or the fence still has the type it had at the last one; a violation that
   * goes on is reported once more if and only if the type has changed.
   */
  lemma TypeChangesExactly(checks: seq<Check>, device: string, fence: string)
    requires checks != [] && DistinctRows(checks) && Concerns(checks[|checks| - 1], device, fence)
    ensures
      var init, last := checks[..|checks| - 1], checks[|checks| - 1];
      var reported := ReportedIn(ReportsAt(checks, |checks| - 1), fence);
      var before, now := LastType(init, device, fence), TypeIn(last.rows, fence);
      && now.Some? && (before.None? <==> Observed(init, device, fence) == [])
      && (BeginsViolation(checks, device, fence) ==> (reported <==> before.None? || before == now))
      && (ViolatesAt(last, device, fence) && !BeginsViolation(checks, device, fence) ==> (reported <==> before != now))
  {
    var init, last := checks[..|checks| - 1], checks[|checks| - 1];
    ReportedExactlyWhen(checks, device, fence);
    LastSeenTellsViolation(init, device, fence);
    SeenAndTypeTellViolation(last, device, fence);
  }

  /** A device outside a forbidden zone that becomes an allowed one begins to violate it, unreported. */
  lemma BeginningGoesUnreported(device: string, fence: string)
    ensures
      var before := Check(device, [Row(fence, Some(ForbiddenZone), Some(false))]);
      var after := Check(device, [Row(fence, Some(AllowedZone), Some(false))]);
      BeginsViolation([before, after], device, fence) && !ReportedIn(ReportsAt([before, after], 1), fence)
  {
    var before := Check(device, [Row(fence, Some(ForbiddenZone), Some(false))]);
    var after := Check(device, [Row(fence, Some(AllowedZone), Some(false))]);
    TwoChecks(before, after, device, fence);
    SeenAndTypeTellViolation(before, device, fence);
    SeenAndTypeTellViolation(after, device, fence);
    TypeChangesExactly([before, after], device, fence);
  }

  /** A device that leaves an allowed zone just as it becomes a forbidden one, and enters: reported twice. */
  lemma ContinuingViolationIsReportedAgain(device: string, fence: string)
    ensures
      var before := Check(device, [Row(fence, Some(AllowedZone), Some(false))]);
      var after := Check(device, [Row(fence, Some(ForbiddenZone), Some(true))]);
      && ViolatesAt(after, device, fence) && !BeginsViolation([before, after], device, fence)
      && ReportedIn(ReportsAt([before, after], 1), fence)
  {
    var before := Check(device, [Row(fence, Some(AllowedZone), Some(false))]);
    var after := Check(device, [Row(fence, Some(ForbiddenZone), Some(true))]);
    TwoChecks(before, after, device, fence);
    SeenAndTypeTellViolation(before, device, fence);
    SeenAndTypeTellViolation(after, device, fence);
    TypeChangesExactly([before, after], device, fence);
  }

  /** A run of two checks of one fence. */
  lemma TwoChecks(before: Check, after: Check, device: string, fence: string)
    requires before.device == after.device == device && |before.rows| == |after.rows| == 1
    requires before.rows[0].fence == after.rows[0].fence == fence
    ensures [before, after][..1] == [before] && DistinctRows([before, after])
    ensures Concerns(before, device, fence) && Concerns(after, device, fence)
    ensures Observed([before], device, fence) == [ViolatesAt(before, device, fence)]
    ensures LastType([before], device, fence) == Some(TypeOf(before.rows[0]))
    ensures SeenIn(before.rows, fence) == Some(Current(before.rows[0])) && SeenIn(after.rows, fence) == Some(Current(after.rows[0]))
    ensures TypeIn(before.rows, fence) == Some(TypeOf(before.rows[0])) && TypeIn(after.rows, fence) == Some(TypeOf(after.rows[0]))
  {
    assert [before][..0] == [];
  }

  // ----- What reports say, in the columns of the spatial query -----

  /** Whether the device was inside the fence when it was last seen; a null ST_Within counts as outside. */
  function LastInside(checks: seq<Check>, device: string, fence: string): Option<bool> {
    if checks == [] then None
    else
      var last := checks[|checks| - 1];
      if last.device == device && InsideIn(last.rows, fence).Some? then InsideIn(last.rows, fence)
      else LastInside(checks[..|checks| - 1], device, fence)
  }

  function InsideIn(rows: seq<Row>, fence: string): Option<bool> {
    if rows == [] then None
    else if rows[|rows| - 1].fence == fence then Some(rows[|rows| - 1].isInside == Some(true))
    else InsideIn(rows[..|rows| - 1], fence)
  }

  function Shown(inside: Option<bool>): Option<Presence> {
    match inside
    case None => None
    case Some(b) => Some(if b then Inside else Outside)
  }

  /**
   * The report due for a row, when `before` says where the device was last seen: an exit when it is
   * now outside a zone that is not forbidden, an entry when it is now inside a forbidden zone.
   */
  predicate Tells(row: Row, before: Option<bool>, v: Violation) {
    && v.fence == row.fence && v.previous == Shown(before)
    && ((row.fenceType != Some(ForbiddenZone) && row.isInside != Some(true) && before != Some(false)
         && v.alert == GeofenceExit && v.current == Outside)
        || (row.fenceType == Some(ForbiddenZone) && row.isInside == Some(true) && before != Some(true)
            && v.alert == GeofenceEntry && v.current == Inside))
  }

  lemma ReportTells(states: States, device: string, row: Row, before: Option<bool>, v: Violation)
    requires Previous(states, device, row.fence) == Shown(before)
    ensures v in Report(states, device, row) <==> Tells(row, before, v)
  {
  }

  lemma {:induction false} FilterHolds(states: States, device: string, rows: seq<Row>, v: Violation)
    ensures v in Filter(states, device, rows) <==> exists i :: 0 <= i < |rows| && v in Report(states, device, rows[i])
  {
    hide Report;
    if rows == [] {
    } else {
      var init := rows[..|rows| - 1];
      FilterHolds(states, device, init, v);
      assert forall i :: 0 <= i < |init| ==> rows[i] == init[i];
    }
  }

  lemma {:induction false} SeenIsInside(rows: seq<Row>, fence: string)
    ensures SeenIn(rows, fence) == Shown(InsideIn(rows, fence))
  {
    if rows == [] {
    } else {
      SeenIsInside(rows[..|rows| - 1], fence);
    }
  }

  lemma {:induction false} LastPresenceIsInside(checks: seq<Check>, device: string, fence: string)
    ensures LastPresence(checks, device, fence) == Shown(LastInside(checks, device, fence))
  {
    if checks == [] {
    } else {
      LastPresenceIsInside(checks[..|checks| - 1], device, fence);
      SeenIsInside(checks[|checks| - 1].rows, fence);
    }
  }

  /** Over every run: a check reports exactly what its rows and the device's last whereabouts call for. */
  lemma ReportsTellTransitions(checks: seq<Check>, n: nat, v: Violation)
    requires n < |checks| && DistinctFences(checks[n].rows)
    ensures
      var c := checks[n];
      v in ReportsAt(checks, n)
      <==> exists i :: 0 <= i < |c.rows| && Tells(c.rows[i], LastInside(checks[..n], c.device, c.rows[i].fence), v)
  {
    var c, states := checks[n], StatesAfter(checks[..n]);
    LoopEqualsFilter(states, c.device, c.rows);
    FilterHolds(states, c.device, c.rows, v);
    forall i | 0 <= i < |c.rows|
      ensures v in Report(states, c.device, c.rows[i])
         <==> Tells(c.rows[i], LastInside(checks[..n], c.device, c.rows[i].fence), v)
    {
      StoreIsLastObservation(checks[..n], c.device, c.rows[i].fence);
      LastPresenceIsInside(checks[..n], c.device, c.rows[i].fence);
      ReportTells(states, c.device, c.rows[i], LastInside(checks[..n], c.device, c.rows[i].fence), v);
    }
  }

  // ----- Runs in which the fence keeps its type -----

  lemma SeenTellsViolation(c: Check, device: string, fence: string, t: FenceType)
    requires WellFormedCheck(c, fence, t) && c.device == device
    ensures Concerns(c, device, fence) <==> SeenIn(c.rows, fence).Some?
    ensures Concerns(c, device, fence) ==> (ViolatesAt(c, device, fence) <==> SeenIn(c.rows, fence) == Some(Bad(t)))
  {
    SeenWithItsType(c.rows, fence);
    if Concerns(c, device, fence) {
      var i :| 0 <= i < |c.rows| && c.rows[i].fence == fence;
      assert ViolatesAt(c, device, fence) <==> Violates(c.rows[i]);
    }
  }

  /** With one type throughout, the last presence and the last observation say the same. */
  lemma {:induction false} PresenceTellsViolation(checks: seq<Check>, device: string, fence: string, t: FenceType)
    requires WellFormed(checks, fence, t)
    ensures
      var seen := Observed(checks, device, fence);
      match LastPresence(checks, device, fence)
      case None => seen == []
      case Some(p) => seen != [] && (seen[|seen| - 1] <==> p == Bad(t))
  {
    hide WellFormedCheck, Concerns, ViolatesAt, SeenIn;
    if checks == [] {
    } else {
      var init, last := checks[..|checks| - 1], checks[|checks| - 1];
      assert WellFormed(init, fence, t);
      PresenceTellsViolation(init, device, fence, t);
      assert WellFormedCheck(last, fence, t);
      if last.device == device {
        SeenTellsViolation(last, device, fence, t);
      } else {
        OtherDevices(last, device, fence);
      }
    }
  }

  lemma OtherDevices(c: Check, device: string, fence: string)
    requires c.device != device
    ensures !Concerns(c, device, fence)
  {
  }

  /** `told` is true exactly where a block of `seen` starts, given what came ahead. */
  ghost predicate MarksStarts(seen: seq<bool>, told: seq<bool>, before: bool) {
    && |told| == |seen|
    && forall i :: 0 <= i < |seen| ==> (told[i] <==> StartsAt(seen, before, i))
  }

  predicate StartsAt(seen: seq<bool>, before: bool, i: nat)
    requires i < |seen|
  {
    seen[i] && !(if i == 0 then before else seen[i - 1])
  }

  lemma MarkOneMore(seen: seq<bool>, told: seq<bool>, x: bool, y: bool)
    requires MarksStarts(seen, told, false)
    requires y <==> x && (seen == [] || !seen[|seen| - 1])
    ensures MarksStarts(seen + [x], told + [y], false)
  {
    var s, t := seen + [x], told + [y];
    forall i | 0 <= i < |s| ensures t[i] <==> StartsAt(s, false, i) {
      if i < |seen| {
        assert told[i] <==> StartsAt(seen, false, i);
      }
    }
  }

  /** The last check reports the fence iff it begins a violation. */
  lemma LastReport(checks: seq<Check>, device: string, fence: string, t: FenceType)
    requires checks != [] && WellFormed(checks, fence, t) && Concerns(checks[|checks| - 1], device, fence)
    ensures ReportedIn(ReportsAt(checks, |checks| - 1), fence) <==> BeginsViolation(checks, device, fence)
  {
    var init, last := checks[..|checks| - 1], checks[|checks| - 1];
    assert WellFormed(init, fence, t);
    assert WellFormedCheck(last, fence, t);
    ReportedExactlyWhen(checks, device, fence);
    PresenceTellsViolation(init, device, fence, t);
    SeenTellsViolation(last, device, fence, t);
  }

  /**
   * Over any run of checks with a fixed fence type, a violation is reported exactly at the start of
   * each maximal block of violating observations, the first observation included.
   */
  lemma {:induction false} ReportsAreBlockStarts(checks: seq<Check>, device: string, fence: string, t: FenceType)
    requires WellFormed(checks, fence, t)
    ensures MarksStarts(Observed(checks, device, fence), Reported(checks, device, fence), false)
  {
    if checks == [] {
    } else {
      var init, last := checks[..|checks| - 1], checks[|checks| - 1];
      assert WellFormed(init, fence, t);
      ReportsAreBlockStarts(init, device, fence, t);
      if Concerns(last, device, fence) {
        LastReport(checks, device, fence, t);
        MarkOneMore(Observed(init, device, fence), Reported(init, device, fence),
                    ViolatesAt(last, device, fence), ReportedIn(ReportsAt(checks, |checks| - 1), fence));
      }
    }
  }

  // ----- Counting blocks -----

  function Trues(s: seq<bool>): nat {
    if s == [] then 0 else (if s[0] then 1 else 0) + Trues(s[1..])
  }

  /** Drop the leading block of trues. */
  function SkipBlock(s: seq<bool>): (rest: seq<bool>)
    ensures |rest| <= |s| && (s != [] && s[0] ==> |rest| < |s|)
    ensures rest != [] ==> !rest[0]
  {
    if s != [] && s[0] then SkipBlock(s[1..]) else s
  }

  /** The number of maximal blocks of trues. */
  function Blocks(s: seq<bool>): nat
    decreases |s|
  {
    if s == [] then 0 else if s[0] then 1 + Blocks(SkipBlock(s)) else Blocks(s[1..])
  }

  /** Trues that do not follow a true, when `before` is what came ahead of s. */
  function Rises(s: seq<bool>, before: bool): nat {
    if s == [] then 0 else (if s[0] && !before then 1 else 0) + Rises(s[1..], s[0])
  }

  lemma {:induction false} RisesCountBlocks(s: seq<bool>)
    ensures Rises(s, false) == Blocks(s)
    ensures Rises(s, true) == Blocks(SkipBlock(s))
    decreases |s|
  {
    if s == [] {
    } else {
      RisesCountBlocks(s[1..]);
    }
  }

  lemma {:induction false} BlockStartsAreRises(seen: seq<bool>, told: seq<bool>, before: bool)
    requires MarksStarts(seen, told, before)
    ensures Trues(told) == Rises(seen, before)
  {
    if seen == [] {
    } else {
      assert told[0] <==> StartsAt(seen, before, 0);
      forall i | 0 <= i < |seen[1..]|
        ensures told[1..][i] <==> StartsAt(seen[1..], seen[0], i)
      {
        assert told[i + 1] <==> StartsAt(seen, before, i + 1);
      }
      BlockStartsAreRises(seen[1..], told[1..], seen[0]);
    }
  }

  /** So the number of reports is the number of visits to the violating side. */
  lemma ReportCount(checks: seq<Check>, device: string, fence: string, t: FenceType)
    requires WellFormed(checks, fence, t)
    ensures Trues(Reported(checks, device, fence)) == Blocks(Observed(checks, device, fence))
  {
    ReportsAreBlockStarts(checks, device, fence, t);
    BlockStartsAreRises(Observed(checks, device, fence), Reported(checks, device, fence), false);
    RisesCountBlocks(Observed(checks, device, fence));
  }

  // ----- The service -----

  function StoredInside(states: States, device: string, fence: string): Option<bool> {
    if (device, fence) in states then Some(states[(device, fence)] == Inside) else None
  }

  lemma ViolationsTell(states: States, device: string, rows: seq<Row>, violations: seq<Violation>)
    requires violations == Filter(states, device, rows)
    ensures forall v :: v in violations
                   <==> exists i :: 0 <= i < |rows| && Tells(rows[i], StoredInside(states, device, rows[i].fence), v)
  {
    forall v
      ensures v in violations
         <==> exists i :: 0 <= i < |rows| && Tells(rows[i], StoredInside(states, device, rows[i].fence), v)
    {
      FilterHolds(states, device, rows, v);
      forall i | 0 <= i < |rows|
        ensures v in Report(states, device, rows[i]) <==> Tells(rows[i], StoredInside(states, device, rows[i].fence), v)
      {
        ReportTells(states, device, rows[i], StoredInside(states, device, rows[i].fence), v);
      }
    }
  }

  lemma RowsAreStored(states: States, device: string, rows: seq<Row>)
    requires DistinctFences(rows)
    ensures
      var after := Evaluate(states, device, rows).0;
      forall i :: 0 <= i < |rows| ==>
        && (device, rows[i].fence) in after
        && after[(device, rows[i].fence)] == if rows[i].isInside == Some(true) then Inside else Outside
  {
    forall i | 0 <= i < |rows|
      ensures Previous(Evaluate(states, device, rows).0, device, rows[i].fence)
           == Some(if rows[i].isInside == Some(true) then Inside else Outside)
    {
      EvaluateStores(states, device, rows, device, rows[i].fence);
    }
  }

  class GeofencesService {
    var states: States

    constructor ()
      ensures states == map[]
    {
      states := map[];
    }

    method GetPreviousState(device: string, fence: string) returns (p: Option<Presence>)
      ensures p == Previous(states, device, fence)
    {
      if (device, fence) in states {
        return Some(states[(device, fence)]);
      }
      return None;
    }

    method SaveCurrentState(device: string, fence: string, p: Presence)
      modifies this
      ensures states == old(states)[(device, fence) := p]
    {
      states := states[(device, fence) := p];
    }

    method EvaluateGeofenceTransitions(device: string, rows: seq<Row>) returns (violations: seq<Violation>)
      modifies this
      ensures (states, violations) == Evaluate(old(states), device, rows)
      ensures DistinctFences(rows) ==> violations == Filter(old(states), device, rows)
      ensures DistinctFences(rows) ==>
                forall v :: v in violations
                       <==> exists i :: 0 <= i < |rows| && Tells(rows[i], StoredInside(old(states), device, rows[i].fence), v)
      ensures DistinctFences(rows) ==>
                forall i :: 0 <= i < |rows| ==>
                  && (device, rows[i].fence) in states
                  && states[(device, rows[i].fence)] == if rows[i].isInside == Some(true) then Inside else Outside
    {
      violations := [];
      for i := 0 to |rows|
        invariant (states, violations) == Evaluate(old(states), device, rows[..i])
      {
        var row := rows[i];
        assert rows[..i + 1][..i] == rows[..i] && violations + [] == violations;
        var current := if row.isInside == Some(true) then Inside else Outside;
        var previous := GetPreviousState(device, row.fence);
        SaveCurrentState(device, row.fence, current);
        var fenceType := if row.fenceType.Some? then row.fenceType.value else AllowedZone;
        var isViolation := (fenceType == AllowedZone && current == Outside) || (fenceType == ForbiddenZone && current == Inside);
        if !isViolation {
          continue;
        }
        var isNewViolation := previous.None? || previous.value != current;
        if !isNewViolation {
          continue;
        }
        violations := violations
          + [Violation(row.fence, if fenceType == AllowedZone then GeofenceExit else GeofenceEntry, current, previous)];
      }
      assert rows[..|rows|] == rows;
      if DistinctFences(rows) {
        LoopEqualsFilter(old(states), device, rows);
        ViolationsTell(old(states), device, rows, violations);
        RowsAreStored(old(states), device, rows);
      }
    }
  }
}
