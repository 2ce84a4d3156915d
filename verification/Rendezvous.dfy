/**
 * Linking an alert to the snapshot image with the same device and snapshotId.
 * The alert consumer looks for the image, then creates the alert; each upload path creates
 * the image log, then links it to alerts that have no link yet. The four steps interleave freely.
 */
module Rendezvous {
  import opened Base

  type Id = nat

  /** `findAt` and `createdAt` are the moments of the handler's two steps. */
  datatype AlertRow = AlertRow(device: string, snapshotId: Option<string>, link: Option<Id>, findAt: nat, createdAt: nat)

  /** `linkedAt` is the moment of the upload's link step, if it ran. */
  datatype LogRow = LogRow(device: string, snapshotId: Option<string>, isImage: bool, createdAt: nat, linkedAt: Option<nat>)

  /** An alert handler between its find and its create. */
  datatype Finding = Finding(device: string, snapshotId: Option<string>, found: Option<Id>, findAt: nat)

  datatype State = State(
    clock: nat,
    alerts: map<Id, AlertRow>,
    logs: map<Id, LogRow>,
    finding: map<Id, Finding>,
    uploading: set<Id>,
    failed: set<Id>)

  const INIT := State(0, map[], map[], map[], {}, {})

  datatype Event =
    | Find(handler: Id, device: string, snapshotId: Option<string>, found: Option<Id>)
    | CreateAlert(handler: Id)
    | CreateLog(upload: Id, device: string, isImage: bool, snapshotId: Option<string>)
    | Link(upload: Id)
    | Fail(id: Id)

  /** JavaScript truthiness of the optional id: an absent or empty one takes part in nothing. */
  predicate Truthy(snapshotId: Option<string>) {
    snapshotId.Some? && snapshotId.value != ""
  }

  predicate IsSnapshot(log: LogRow, device: string, snapshotId: Option<string>) {
    log.isImage && log.device == device && log.snapshotId == snapshotId
  }

  /** The newest image log of the device with that snapshotId, or None when there is none. */
  ghost predicate IsNewestSnapshot(logs: map<Id, LogRow>, device: string, snapshotId: Option<string>, found: Option<Id>) {
    match found
    case None => forall l :: l in logs ==> !IsSnapshot(logs[l], device, snapshotId)
    case Some(m) =>
      && m in logs && IsSnapshot(logs[m], device, snapshotId)
      && forall l :: l in logs && IsSnapshot(logs[l], device, snapshotId) ==> logs[l].createdAt <= logs[m].createdAt
  }

  /** UPDATE alerts SET link WHERE device, snapshotId match AND link IS NULL */
  function LinkUnlinked(alerts: map<Id, AlertRow>, device: string, snapshotId: Option<string>, log: Id): map<Id, AlertRow> {
    map a | a in alerts ::
      if alerts[a].device == device && alerts[a].snapshotId == snapshotId && alerts[a].link.None?
      then alerts[a].(link := Some(log)) else alerts[a]
  }

  predicate NeedsLink(log: LogRow) {
    log.isImage && Truthy(log.snapshotId)
  }

  /** Every event takes one tick of the clock; an event that cannot happen only takes the tick. */
  ghost function Step(s: State, e: Event): State {
    var t := s.(clock := s.clock + 1);
    match e
    case Find(h, device, snap, found) =>
      if h in s.finding || h in s.alerts || h in s.failed
      || !(if Truthy(snap) then IsNewestSnapshot(s.logs, device, snap, found) else found.None?) then t
      else t.(finding := s.finding[h := Finding(device, snap, found, s.clock)])
    case CreateAlert(h) =>
      if h !in s.finding then t
      else
        var f := s.finding[h];
        t.(finding := s.finding - {h},
           alerts := s.alerts[h := AlertRow(f.device, f.snapshotId, f.found, f.findAt, s.clock)])
    case CreateLog(u, device, isImage, snap) =>
      if u in s.logs then t
      else
        var row := LogRow(device, snap, isImage, s.clock, None);
        t.(logs := s.logs[u := row],
           uploading := if NeedsLink(row) then s.uploading + {u} else s.uploading)
    case Link(u) =>
      if u !in s.uploading || u !in s.logs then t
      else t.(uploading := s.uploading - {u},
              logs := s.logs[u := s.logs[u].(linkedAt := Some(s.clock))],
              alerts := LinkUnlinked(s.alerts, s.logs[u].device, s.logs[u].snapshotId, u))
    case Fail(id) =>
      t.(finding := s.finding - {id}, uploading := s.uploading - {id}, failed := s.failed + {id})
  }

  ghost function Run(es: seq<Event>): State {
    if es == [] then INIT else Step(Run(es[..|es| - 1]), es[|es| - 1])
  }

  /** A log matches an alert when it is an image of its device with its snapshotId. */
  lemma MatchingMeans(s: State, a: Id, l: Id)
    requires a in s.alerts
    ensures Matching(s, a, l)
       <==> l in s.logs && s.logs[l].isImage && s.logs[l].device == s.alerts[a].device && s.logs[l].snapshotId == s.alerts[a].snapshotId
  {
  }

  /** Image log l carries the snapshot that alert a asks for. */
  ghost predicate Matching(s: State, a: Id, l: Id)
    requires a in s.alerts
  {
    l in s.logs && IsSnapshot(s.logs[l], s.alerts[a].device, s.alerts[a].snapshotId)
  }

  /** The upload ran both its steps between this alert's find and create. */
  ghost predicate FellBetween(a: AlertRow, l: LogRow) {
    a.findAt < l.createdAt && l.linkedAt.Some? && l.linkedAt.value < a.createdAt
  }

  /** The log came too late for this alert's find, and its link step, if it ran, too early for the alert. */
  ghost predicate MayMiss(a: AlertRow, l: LogRow) {
    a.findAt < l.createdAt && (l.linkedAt.Some? ==> l.linkedAt.value < a.createdAt)
  }

  ghost predicate AlertInv(s: State, a: Id)
    requires a in s.alerts
  {
    var row := s.alerts[a];
    && row.findAt < row.createdAt < s.clock
    && (row.link.Some? ==>
          && Truthy(row.snapshotId)
          && Matching(s, a, row.link.value)
          && !MayMiss(row, s.logs[row.link.value]))
    && (row.link.None? && Truthy(row.snapshotId) ==>
          forall l :: Matching(s, a, l) ==> MayMiss(row, s.logs[l]))
  }

  ghost predicate FindingInv(s: State, h: Id)
    requires h in s.finding
  {
    var f := s.finding[h];
    && f.findAt < s.clock
    && (f.found.Some? ==>
          && Truthy(f.snapshotId)
          && f.found.value in s.logs && IsSnapshot(s.logs[f.found.value], f.device, f.snapshotId)
          && s.logs[f.found.value].createdAt < f.findAt)
    && (f.found.None? && Truthy(f.snapshotId) ==>
          forall l :: l in s.logs && IsSnapshot(s.logs[l], f.device, f.snapshotId) ==> f.findAt < s.logs[l].createdAt)
  }

  ghost predicate LogInv(s: State, l: Id)
    requires l in s.logs
  {
    && s.logs[l].createdAt < s.clock
    && (s.logs[l].linkedAt.Some? ==> s.logs[l].createdAt < s.logs[l].linkedAt.value < s.clock)
    && (l in s.uploading ==> NeedsLink(s.logs[l]) && s.logs[l].linkedAt.None?)
    && (NeedsLink(s.logs[l]) && s.logs[l].linkedAt.None? ==> l in s.uploading || l in s.failed)
  }

  ghost predicate Inv(s: State) {
    && (forall a :: a in s.alerts ==> AlertInv(s, a))
    && (forall h :: h in s.finding ==> FindingInv(s, h) && h !in s.alerts)
    && (forall l :: l in s.logs ==> LogInv(s, l))
    && s.uploading <= s.logs.Keys
  }

  lemma StepKeepsLogs(s: State, e: Event, l: Id)
    requires Inv(s) && l in Step(s, e).logs
    ensures LogInv(Step(s, e), l)
  {
    if l in s.logs {
      assert LogInv(s, l);
    }
  }

  lemma FindKeepsFindings(s: State, e: Event, h: Id)
    requires Inv(s) && e.Find? && h in Step(s, e).finding
    ensures FindingInv(Step(s, e), h)
  {
    if h in s.finding {
      assert FindingInv(s, h);
    }
    assert forall l :: l in s.logs ==> LogInv(s, l);
  }

  lemma StepKeepsFindings(s: State, e: Event, h: Id)
    requires Inv(s) && h in Step(s, e).finding
    ensures FindingInv(Step(s, e), h)
  {
    if e.Find? {
      FindKeepsFindings(s, e, h);
    } else {
      assert FindingInv(s, h);
    }
  }

  lemma StepKeepsAlerts(s: State, e: Event, a: Id)
    requires Inv(s) && a in Step(s, e).alerts
    ensures AlertInv(Step(s, e), a)
  {
    match e
    case Find(_, _, _, _) => assert AlertInv(s, a);
    case Fail(_) => assert AlertInv(s, a);
    case CreateLog(_, _, _, _) => assert AlertInv(s, a);
    case CreateAlert(h) => CreateKeepsAlerts(s, h, a);
    case Link(u) => LinkKeepsAlerts(s, u, a);
  }

  lemma CreateKeepsAlerts(s: State, h: Id, a: Id)
    requires Inv(s) && a in Step(s, CreateAlert(h)).alerts
    ensures AlertInv(Step(s, CreateAlert(h)), a)
  {
    if a in s.alerts {
      assert AlertInv(s, a);
    } else {
      assert FindingInv(s, a);
      assert forall l :: l in s.logs ==> LogInv(s, l);
    }
  }

  lemma LinkKeepsAlerts(s: State, u: Id, a: Id)
    requires Inv(s) && a in Step(s, Link(u)).alerts
    ensures AlertInv(Step(s, Link(u)), a)
  {
    assert AlertInv(s, a);
    if u in s.uploading {
      assert LogInv(s, u);
    }
  }

  lemma StepKeepsInv(s: State, e: Event)
    requires Inv(s)
    ensures Inv(Step(s, e))
  {
    var t := Step(s, e);
    forall a | a in t.alerts ensures AlertInv(t, a) { StepKeepsAlerts(s, e, a); }
    forall h | h in t.finding ensures FindingInv(t, h) { StepKeepsFindings(s, e, h); }
    assert forall h :: h in t.finding ==> h !in t.alerts;
    forall l | l in t.logs ensures LogInv(t, l) { StepKeepsLogs(s, e, l); }
  }

  lemma {:induction false} RunKeepsInv(es: seq<Event>)
    ensures Inv(Run(es))
  {
    if es == [] {
    } else {
      RunKeepsInv(es[..|es| - 1]);
      StepKeepsInv(Run(es[..|es| - 1]), es[|es| - 1]);
    }
  }

  /** A link names an image log of the alert's own device and snapshotId. */
  lemma LinksAreSound(es: seq<Event>, a: Id)
    requires a in Run(es).alerts && Run(es).alerts[a].link.Some?
    ensures
      var s := Run(es);
      var row, l := s.alerts[a], s.alerts[a].link.value;
      && row.snapshotId.Some? && row.snapshotId.value != ""
      && l in s.logs && s.logs[l].isImage && s.logs[l].device == row.device && s.logs[l].snapshotId == row.snapshotId
  {
    RunKeepsInv(es);
  }

  lemma StepKeepsLink(s: State, e: Event, a: Id)
    requires Inv(s) && a in s.alerts
    ensures a in Step(s, e).alerts
    ensures s.alerts[a].link.Some? ==> Step(s, e).alerts[a].link == s.alerts[a].link
    ensures Step(s, e).alerts[a].(link := None) == s.alerts[a].(link := None)
  {
  }

  /** Whatever happens afterwards, an alert stays and its link, once set, never changes. */
  lemma {:induction false} LinksNeverChange(es: seq<Event>, more: seq<Event>, a: Id)
    requires a in Run(es).alerts
    ensures a in Run(es + more).alerts
    ensures Run(es).alerts[a].link.Some? ==> Run(es + more).alerts[a].link == Run(es).alerts[a].link
    ensures Run(es + more).alerts[a].(link := None) == Run(es).alerts[a].(link := None)
    decreases |more|
  {
    hide Step, Inv;
    if more == [] {
      assert es + more == es;
    } else {
      var shorter := more[..|more| - 1];
      LinksNeverChange(es, shorter, a);
      assert (es + more)[..|es + more| - 1] == es + shorter;
      RunKeepsInv(es + shorter);
      StepKeepsLink(Run(es + shorter), more[|more| - 1], a);
    }
  }

  /**
   * Exactly when an alert has no link, in every reachable state, with handlers failed or under way: every
   * matching image came after its find, and those that have run their link step ran it before its create.
   */
  lemma UnlinkedExactlyWhen(es: seq<Event>, a: Id)
    requires a in Run(es).alerts && Truthy(Run(es).alerts[a].snapshotId)
    ensures Run(es).alerts[a].link.None?
       <==> forall l :: Matching(Run(es), a, l) ==> MayMiss(Run(es).alerts[a], Run(es).logs[l])
  {
    RunKeepsInv(es);
    assert AlertInv(Run(es), a);
  }

  /**
   * So once the matching uploads have run their link steps, the rendezvous has missed if and only if every
   * one of them ran wholly between the alert's find and its create.
   */
  lemma MissedExactlyWhenUploadsFellBetween(es: seq<Event>, a: Id)
    requires a in Run(es).alerts && Truthy(Run(es).alerts[a].snapshotId)
    requires forall l :: Matching(Run(es), a, l) ==> Run(es).logs[l].linkedAt.Some?
    ensures Run(es).alerts[a].link.None?
       <==> forall l :: Matching(Run(es), a, l) ==> FellBetween(Run(es).alerts[a], Run(es).logs[l])
  {
    UnlinkedExactlyWhen(es, a);
  }

  /** One matching upload that has linked, and not wholly in that gap, suffices, whatever else fails. */
  lemma OneLinkedUploadSuffices(es: seq<Event>, a: Id, l: Id)
    requires a in Run(es).alerts && Truthy(Run(es).alerts[a].snapshotId) && Matching(Run(es), a, l)
    requires Run(es).logs[l].linkedAt.Some? && !FellBetween(Run(es).alerts[a], Run(es).logs[l])
    ensures Run(es).alerts[a].link.Some?
  {
    UnlinkedExactlyWhen(es, a);
  }

  /** All handlers have finished and none failed. */
  ghost predicate Quiescent(s: State) {
    s.finding == map[] && s.uploading == {} && s.failed == {}
  }

  /** An upload that is neither under way nor failed has linked; its own end is all an alert depends on. */
  lemma FinishedUploadsLink(es: seq<Event>, a: Id, l: Id)
    requires a in Run(es).alerts && Truthy(Run(es).alerts[a].snapshotId) && Matching(Run(es), a, l)
    requires l !in Run(es).uploading && l !in Run(es).failed
    requires !FellBetween(Run(es).alerts[a], Run(es).logs[l])
    ensures Run(es).alerts[a].link.Some?
  {
    RunKeepsInv(es);
    assert LogInv(Run(es), l);
    OneLinkedUploadSuffices(es, a, l);
  }

  /** The gap is real: a failure-free run that ends with the image stored and the alert unlinked. */
  lemma RendezvousCanMiss(device: string)
    ensures
      var snap := Some("s");
      var s := Run([Find(0, device, snap, None), CreateLog(7, device, true, snap), Link(7), CreateAlert(0)]);
      Quiescent(s) && 0 in s.alerts && Matching(s, 0, 7) && s.alerts[0].link.None?
  {
    assert Run([]) == INIT;
    hide Run;
    var snap := Some("s");
    var e1 := [Find(0, device, snap, None)];
    var e2 := e1 + [CreateLog(7, device, true, snap)];
    var e3 := e2 + [Link(7)];
    RunOneMore([], e1[0]);
    assert [] + e1 == e1;
    RunOneMore(e1, CreateLog(7, device, true, snap));
    RunOneMore(e2, Link(7));
    RunOneMore(e3, CreateAlert(0));
    assert Run(e1).finding == map[0 := Finding(device, snap, None, 0)];
    assert Run(e2).uploading == {7};
    assert Run(e3).uploading == {} && Run(e3).finding == Run(e1).finding;
    assert e3 + [CreateAlert(0)]
        == [Find(0, device, snap, None), CreateLog(7, device, true, snap), Link(7), CreateAlert(0)];
  }

  lemma RunOneMore(es: seq<Event>, e: Event)
    ensures Run(es + [e]) == Step(Run(es), e)
  {
    assert (es + [e])[..|es|] == es;
  }

  // ----- The two consumers over the alerts and media-log tables -----

  class Tables {
    var alerts: map<Id, AlertRow>
    var logs: map<Id, LogRow>

    constructor ()
      ensures alerts == map[] && logs == map[]
    {
      alerts, logs := map[], map[];
    }

    /** AlertsService.findSnapshotMediaLog */
    method FindSnapshotMediaLog(device: string, snapshotId: Option<string>) returns (found: Option<Id>)
      ensures IsNewestSnapshot(logs, device, snapshotId, found)
      ensures found.Some? ==>
                found.value in logs && logs[found.value].isImage && logs[found.value].device == device
                && logs[found.value].snapshotId == snapshotId
      ensures forall l :: l in logs && logs[l].isImage && logs[l].device == device && logs[l].snapshotId == snapshotId ==>
                found.Some? && logs[l].createdAt <= logs[found.value].createdAt
    {
      found := None;
      var rest := logs.Keys;
      while rest != {}
        invariant rest <= logs.Keys
        invariant IsNewestSnapshot(map l | l in logs && l !in rest :: logs[l], device, snapshotId, found)
      {
        var l :| l in rest;
        rest := rest - {l};
        if IsSnapshot(logs[l], device, snapshotId)
           && (found.None? || logs[found.value].createdAt < logs[l].createdAt) {
          found := Some(l);
        }
      }
      assert (map l | l in logs && l !in rest :: logs[l]) == logs;
    }

    /** First step of AlertsConsumer.handleMessage: look the image up only for a truthy id. */
    method FindStep(device: string, snapshotId: Option<string>, clock: nat) returns (f: Finding)
      ensures f.device == device && f.snapshotId == snapshotId && f.findAt == clock
      ensures Truthy(snapshotId) ==> IsNewestSnapshot(logs, device, snapshotId, f.found)
      ensures !Truthy(snapshotId) ==> f.found.None?
      ensures snapshotId.None? || snapshotId.value == "" ==> f.found.None?
      ensures snapshotId.Some? && snapshotId.value != "" ==> IsNewestSnapshot(logs, device, snapshotId, f.found)
    {
      var found := None;
      if Truthy(snapshotId) {
        found := FindSnapshotMediaLog(device, snapshotId);
      }
      f := Finding(device, snapshotId, found, clock);
    }

    /** Second step: insert the alert with what was found before. */
    method CreateAlertStep(h: Id, f: Finding, clock: nat)
      modifies this`alerts
      ensures alerts == old(alerts)[h := AlertRow(f.device, f.snapshotId, f.found, f.findAt, clock)]
    {
      alerts := alerts[h := AlertRow(f.device, f.snapshotId, f.found, f.findAt, clock)];
    }

    /** First step of an upload (MediaLogsConsumer.handleMessage or confirmUpload). */
    method CreateLogStep(u: Id, device: string, isImage: bool, snapshotId: Option<string>, clock: nat)
      returns (needsLink: bool)
      modifies this`logs
      ensures logs == old(logs)[u := LogRow(device, snapshotId, isImage, clock, None)]
      ensures needsLink <==> isImage && snapshotId.Some? && snapshotId.value != ""
    {
      logs := logs[u := LogRow(device, snapshotId, isImage, clock, None)];
      needsLink := isImage && Truthy(snapshotId);
    }

    /** Second step of an upload: AlertsService.linkSnapshotMedia */
    method LinkStep(u: Id, clock: nat)
      requires u in logs
      modifies this
      ensures alerts.Keys == old(alerts).Keys
      ensures forall a :: a in alerts ==>
                alerts[a] == (if old(alerts)[a].link.None? && old(alerts)[a].device == old(logs)[u].device
                                 && old(alerts)[a].snapshotId == old(logs)[u].snapshotId
                              then old(alerts)[a].(link := Some(u)) else old(alerts)[a])
      ensures logs == old(logs)[u := old(logs)[u].(linkedAt := Some(clock))]
    {
      alerts := LinkUnlinked(alerts, logs[u].device, logs[u].snapshotId, u);
      logs := logs[u := logs[u].(linkedAt := Some(clock))];
    }
  }
}
