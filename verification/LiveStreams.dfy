/**
 * Live-stream sessions: started and stopped by LiveStreamsService, updated by device status
 * messages in MqttService, all three through one stored session per device.
 */
module LiveStreams {
  import opened Base
  import opened TtlStore
  import Keys

  datatype Status = Starting | Ready | Failed | Stopped

  datatype Session = Session(
    requestId: string,
    device: string,
    status: Status,
    rtspUrl: Option<string>,
    webrtcUrl: Option<string>,
    startedBy: string,
    startedAt: int,
    expiresAt: int,
    errorMessage: Option<string>)

  /** The payload a device publishes on its stream/status topic. */
  datatype StatusMessage = StatusMessage(requestId: string, status: Status, rtspUrl: Option<string>, errorMessage: Option<string>)

  type Duration = n: int | 30 <= n <= 3600 witness 300

  const DEFAULT_DURATION_SECONDS: Duration := 300
  const STOPPED_SECONDS: Lifetime := 60

  function SessionKey(device: string): string {
    Keys.Key(Keys.LiveStream, device)
  }

  /** buildWebRtcUrl(buildPath(deviceId)) */
  function WebRtcUrl(base: string, device: string): string {
    base + "/device-" + device + "/"
  }

  /** Math.ceil(ms / 1000), negative times included. */
  function CeilSeconds(ms: int): int {
    -((-ms) / MS)
  }

  // ----- The handlers on one device's slot -----

  function NewSession(requestId: string, device: string, user: string, now: int, duration: Duration): Session {
    Session(requestId, device, Starting, None, None, user, now, now + MS * duration, None)
  }

  function Start(requestId: string, device: string, user: string, now: int, duration: Duration): Option<Entry<Session>> {
    Some(Entry(NewSession(requestId, device, user, now, duration), Some(now + MS * duration)))
  }

  /** The stopped session stays for 60 s, whatever was left of its own lifetime. */
  function Stop(slot: Option<Entry<Session>>, now: int): Option<Entry<Session>> {
    match Peek(slot, now)
    case None => slot
    case Some(s) => Some(Entry(s.(status := Stopped, webrtcUrl := None), Some(now + MS * STOPPED_SECONDS)))
  }

  /**
   * For READY with a non-empty URL the stream is registered with the media server. An answer of the
   * server, an error status included, is only logged; the update is lost when the server is unreachable.
   */
  predicate Registers(m: StatusMessage) {
    m.status == Ready && m.rtspUrl.Some? && m.rtspUrl.value != ""
  }

  function Updated(s: Session, m: StatusMessage, url: string): Session {
    s.(status := m.status,
       rtspUrl := if m.rtspUrl.Some? then m.rtspUrl else s.rtspUrl,
       webrtcUrl := if m.status == Ready then Some(url) else s.webrtcUrl,
       errorMessage := m.errorMessage)
  }

  function RemainingSeconds(s: Session, now: int): Lifetime {
    Max(CeilSeconds(s.expiresAt - now), 60)
  }

  /** The message is for the session that is present, and nothing keeps it from being stored. */
  predicate Accepted(slot: Option<Entry<Session>>, now: int, m: StatusMessage, unreachable: bool) {
    Peek(slot, now).Some? && Peek(slot, now).value.requestId == m.requestId && !(Registers(m) && unreachable)
  }

  function Receive(slot: Option<Entry<Session>>, now: int, m: StatusMessage, url: string, unreachable: bool): Option<Entry<Session>> {
    match Peek(slot, now)
    case None => slot
    case Some(s) =>
      if s.requestId != m.requestId || (Registers(m) && unreachable) then slot
      else Some(Entry(Updated(s, m, url), Some(now + MS * RemainingSeconds(s, now))))
  }

  // ----- Runs for one device -----

  /** `latest` is the session of the latest start as it was created; `earlier` the ids of all starts before it. */
  datatype State = State(now: int, slot: Option<Entry<Session>>, latest: Option<Session>, earlier: set<string>)

  datatype Event =
    | DoStart(requestId: string, user: string, duration: Option<Duration>)
    | DoStop
    | DoStatus(message: StatusMessage, unreachable: bool)
    | Tick(elapsed: nat)

  const INIT := State(0, None, None, {})

  function DurationOf(d: Option<Duration>): Duration {
    if d.Some? then d.value else DEFAULT_DURATION_SECONDS
  }

  function Ids(s: State): set<string> {
    s.earlier + if s.latest.Some? then {s.latest.value.requestId} else {}
  }

  /** Request ids are random UUIDs: a start under an id used before does not happen. */
  function Step(device: string, base: string, s: State, e: Event): State {
    match e
    case Tick(d) => s.(now := s.now + d)
    case DoStart(id, user, d) =>
      if id in Ids(s) then s
      else s.(slot := Start(id, device, user, s.now, DurationOf(d)),
              latest := Some(NewSession(id, device, user, s.now, DurationOf(d))),
              earlier := Ids(s))
    case DoStop => s.(slot := Stop(s.slot, s.now))
    case DoStatus(m, unreachable) => s.(slot := Receive(s.slot, s.now, m, WebRtcUrl(base, device), unreachable))
  }

  function Run(device: string, base: string, es: seq<Event>): State {
    if es == [] then INIT else Step(device, base, Run(device, base, es[..|es| - 1]), es[|es| - 1])
  }

  /** The stored session is the latest one in all that a start decides. */
  ghost predicate SameStart(a: Session, b: Session) {
    && a.requestId == b.requestId && a.device == b.device && a.startedBy == b.startedBy
    && a.startedAt == b.startedAt && a.expiresAt == b.expiresAt
  }

  ghost predicate Inv(device: string, s: State) {
    && (s.slot.Some? ==>
          && s.latest.Some?
          && SameStart(s.slot.value.value, s.latest.value)
          && (s.slot.value.value.status == Ready ==> s.slot.value.value.webrtcUrl.Some?))
    && (s.latest.Some? ==> s.latest.value.device == device && s.latest.value.startedAt <= s.now
                           && s.latest.value.requestId !in s.earlier)
  }

  lemma {:induction false} RunKeepsInv(device: string, base: string, es: seq<Event>)
    ensures Inv(device, Run(device, base, es))
  {
    if es == [] {
    } else {
      RunKeepsInv(device, base, es[..|es| - 1]);
    }
  }

  /** In every run the stored session carries the request id, owner and times of the device's latest start. */
  lemma {:induction false} SessionIsLatestStart(device: string, base: string, es: seq<Event>)
    requires Run(device, base, es).slot.Some?
    ensures Run(device, base, es).latest.Some?
    ensures SameStart(Run(device, base, es).slot.value.value, Run(device, base, es).latest.value)
  {
    RunKeepsInv(device, base, es);
  }

  /** The latest start that took place: its request, its user, when, and for how many seconds. */
  function LatestStart(device: string, base: string, es: seq<Event>): Option<(string, string, int, int)> {
    if es == [] then None
    else
      var init := es[..|es| - 1];
      match es[|es| - 1]
      case DoStart(id, user, duration) =>
        var s := Run(device, base, init);
        if id in Ids(s) then LatestStart(device, base, init)
        else Some((id, user, s.now, if duration.Some? then duration.value else 300))
      case _ => LatestStart(device, base, init)
  }

  /** In every run: whose session it is, who started it and when, and when it expires, as that start decided. */
  lemma {:induction false} SessionCarriesItsStart(device: string, base: string, es: seq<Event>)
    requires Run(device, base, es).slot.Some?
    ensures
      var session := Run(device, base, es).slot.value.value;
      && LatestStart(device, base, es).Some?
      && var (id, user, at, seconds) := LatestStart(device, base, es).value;
      && session.requestId == id && session.startedBy == user && session.device == device
      && session.startedAt == at && session.expiresAt == at + seconds * 1000
  {
    var init, last := es[..|es| - 1], es[|es| - 1];
    match last
    case DoStart(id, _, _) =>
      if id in Ids(Run(device, base, init)) {
        SessionCarriesItsStart(device, base, init);
      }
    case _ =>
      SessionCarriesItsStart(device, base, init);
  }

  /** READY sessions always have a WebRTC URL. */
  lemma {:induction false} ReadyHasUrl(device: string, base: string, es: seq<Event>)
    requires Run(device, base, es).slot.Some? && Run(device, base, es).slot.value.value.status == Ready
    ensures Run(device, base, es).slot.value.value.webrtcUrl.Some?
  {
    RunKeepsInv(device, base, es);
  }

  /** A message for any request but the latest, such as a superseded one, changes nothing. */
  lemma StaleMessagesAreIgnored(device: string, base: string, es: seq<Event>, m: StatusMessage, unreachable: bool)
    requires m.requestId in Run(device, base, es).earlier
          || Run(device, base, es).latest.None? || Run(device, base, es).latest.value.requestId != m.requestId
    ensures Receive(Run(device, base, es).slot, Run(device, base, es).now, m, WebRtcUrl(base, device), unreachable) == Run(device, base, es).slot
  {
    RunKeepsInv(device, base, es);
  }

  lemma CeilBounds(ms: int)
    ensures ms <= MS * CeilSeconds(ms) <= ms + MS - 1
  {
  }

  /**
   * A status write keeps the session at least until it expires, and no longer than the rounding to
   * seconds or the 60 s floor explains; a start keeps it exactly until it expires.
   */
  lemma {:induction false} DeadlineBounds(device: string, base: string, es: seq<Event>, e: Event)
    requires
      var s := Run(device, base, es);
      match e
      case DoStart(id, _, _) => id !in Ids(s)
      case DoStatus(m, unreachable) => Accepted(s.slot, s.now, m, unreachable)
      case _ => false
    ensures
      var s := Step(device, base, Run(device, base, es), e);
      && s.slot.Some? && s.slot.value.deadline.Some?
      && var expires, deadline := s.slot.value.value.expiresAt, s.slot.value.deadline.value;
      && expires <= deadline <= Max(expires + MS - 1, s.now + MS * 60)
      && (e.DoStart? ==> deadline == expires)
  {
    var s := Run(device, base, es);
    if e.DoStatus? {
      var session := Peek(s.slot, s.now).value;
      CeilBounds(session.expiresAt - s.now);
    }
  }

  /** STOPPED is not final: until the key expires, a READY for the same request revives the session. */
  lemma StoppedCanBeRevived(device: string, base: string, es: seq<Event>, wait: nat)
    requires Peek(Run(device, base, es).slot, Run(device, base, es).now).Some?
    requires wait <= MS * STOPPED_SECONDS
    ensures
      var s := Step(device, base, Run(device, base, es), DoStop);
      var m := StatusMessage(s.slot.value.value.requestId, Ready, None, None);
      var t := Step(device, base, s.(now := s.now + wait), DoStatus(m, false));
      && s.slot.value.value.status == Stopped
      && t.slot.value.value.status == Ready && t.slot.value.value.webrtcUrl.Some?
  {
  }

  /**
   * With nothing but time since the stop, a message takes the session out of STOPPED exactly when it
   * arrives within 60 s, names the same request, and the media server, if needed, is reachable.
   */
  lemma StopEndsExactlyWhen(device: string, base: string, es: seq<Event>, wait: nat, m: StatusMessage, unreachable: bool)
    requires Peek(Run(device, base, es).slot, Run(device, base, es).now).Some? && m.status != Stopped
    ensures
      var s := Step(device, base, Run(device, base, es), DoStop);
      var t := Step(device, base, s.(now := s.now + wait), DoStatus(m, unreachable));
      && s.slot.value.value.status == Stopped && t.slot.Some?
      && (t.slot.value.value.status != Stopped
          <==> wait <= MS * STOPPED_SECONDS && m.requestId == s.slot.value.value.requestId && !(Registers(m) && unreachable))
  {
  }

  predicate IsStopped(s: State) {
    s.slot.Some? && s.slot.value.value.status == Stopped
  }

  /** A new start, or a message with another status for the stopped request while its key is present. */
  predicate Undoes(s: State, e: Event) {
    match e
    case DoStart(id, _, _) => id !in Ids(s)
    case DoStatus(m, unreachable) => m.status != Stopped && Accepted(s.slot, s.now, m, unreachable)
    case _ => false
  }

  lemma StopStep(device: string, base: string, s: State, e: Event)
    requires IsStopped(s)
    ensures IsStopped(Step(device, base, s, e)) <==> !Undoes(s, e)
  {
  }

  lemma RunOneMore(device: string, base: string, es: seq<Event>, more: seq<Event>, n: nat)
    requires n < |more|
    ensures Run(device, base, es + more[..n + 1]) == Step(device, base, Run(device, base, es + more[..n]), more[n])
  {
    assert (es + more[..n + 1])[..|es| + n] == es + more[..n];
  }

  lemma {:induction false} StaysStopped(device: string, base: string, es: seq<Event>, more: seq<Event>, n: nat)
    requires n <= |more| && IsStopped(Run(device, base, es))
    requires forall k :: 0 <= k < n ==> !Undoes(Run(device, base, es + more[..k]), more[k])
    ensures IsStopped(Run(device, base, es + more[..n]))
  {
    hide *;
    if n == 0 {
      assert es + more[..0] == es;
    } else {
      StaysStopped(device, base, es, more, n - 1);
      StopStep(device, base, Run(device, base, es + more[..n - 1]), more[n - 1]);
      RunOneMore(device, base, es, more, n - 1);
    }
  }

  /** Over whole runs: from any moment a session is stopped, it stays so exactly as long as nothing undoes it. */
  lemma StopLastsUntilUndone(device: string, base: string, es: seq<Event>, more: seq<Event>)
    requires IsStopped(Run(device, base, es))
    ensures (forall n :: 0 <= n <= |more| ==> IsStopped(Run(device, base, es + more[..n])))
       <==> (forall n :: 0 <= n < |more| ==> !Undoes(Run(device, base, es + more[..n]), more[n]))
  {
    hide *;
    if forall n :: 0 <= n <= |more| ==> IsStopped(Run(device, base, es + more[..n])) {
      forall n | 0 <= n < |more| ensures !Undoes(Run(device, base, es + more[..n]), more[n]) {
        StopStep(device, base, Run(device, base, es + more[..n]), more[n]);
        RunOneMore(device, base, es, more, n);
        assert IsStopped(Run(device, base, es + more[..n + 1]));
      }
    }
    if forall n :: 0 <= n < |more| ==> !Undoes(Run(device, base, es + more[..n]), more[n]) {
      forall n | 0 <= n <= |more| ensures IsStopped(Run(device, base, es + more[..n])) {
        StaysStopped(device, base, es, more, n);
      }
    }
  }

  // ----- Until when a stop can be undone, from the events alone -----

  function Clock(start: int, more: seq<Event>): int {
    if more == [] then start
    else Clock(start, more[..|more| - 1]) + match more[|more| - 1] case Tick(d) => d case _ => 0
  }

  /**
   * The moment up to which the session `stopped` at time `start` can be revived: 60 s after the stop,
   * moved by each later stop to 60 s after that one, and by each STOPPED message of the device for this
   * request to the end of the session's own lifetime, rounded up, or 60 s if that is more.
   */
  function RevivableUntil(stopped: Session, start: int, more: seq<Event>): int {
    if more == [] then start + MS * STOPPED_SECONDS
    else
      var init := more[..|more| - 1];
      var until, now := RevivableUntil(stopped, start, init), Clock(start, init);
      match more[|more| - 1]
      case DoStop => if now <= until then now + MS * STOPPED_SECONDS else until
      case DoStatus(m, _) =>
        if m.status == Stopped && m.requestId == stopped.requestId && now <= until
        then now + MS * RemainingSeconds(stopped, now) else until
      case _ => until
  }

  /** The event ends the stop: a new start, or a message with another status that comes in time. */
  predicate EndsStop(stopped: Session, known: set<string>, start: int, more: seq<Event>, e: Event) {
    match e
    case DoStart(id, _, _) => id !in known
    case DoStatus(m, unreachable) =>
      && m.status != Stopped && m.requestId == stopped.requestId && !(Registers(m) && unreachable)
      && Clock(start, more) <= RevivableUntil(stopped, start, more)
    case _ => false
  }

  /** The state while the stop lasts. */
  ghost predicate StillStopped(s: State, stopped: Session, known: set<string>, start: int, more: seq<Event>) {
    && IsStopped(s) && Ids(s) == known && s.now == Clock(start, more)
    && s.slot.value.value.requestId == stopped.requestId && s.slot.value.value.expiresAt == stopped.expiresAt
    && s.slot.value.deadline == Some(RevivableUntil(stopped, start, more))
  }

  lemma EndsStopUndoes(s: State, stopped: Session, known: set<string>, start: int, more: seq<Event>, e: Event)
    requires StillStopped(s, stopped, known, start, more)
    ensures EndsStop(stopped, known, start, more, e) <==> Undoes(s, e)
  {
  }

  lemma StopGoesOn(device: string, base: string, s: State, stopped: Session, known: set<string>, start: int, more: seq<Event>, e: Event)
    requires StillStopped(s, stopped, known, start, more) && !Undoes(s, e)
    ensures StillStopped(Step(device, base, s, e), stopped, known, start, more + [e])
  {
    assert (more + [e])[..|more|] == more;
  }

  lemma {:induction false} StopSoFar(device: string, base: string, es: seq<Event>, more: seq<Event>, n: nat)
    requires Peek(Run(device, base, es).slot, Run(device, base, es).now).Some? && n <= |more|
    requires
      var s := Run(device, base, es);
      forall k :: 0 <= k < n ==> !EndsStop(s.slot.value.value, Ids(s), s.now, more[..k], more[k])
    ensures
      var s := Run(device, base, es);
      StillStopped(Run(device, base, es + [DoStop] + more[..n]), s.slot.value.value, Ids(s), s.now, more[..n])
  {
    var s := Run(device, base, es);
    if n == 0 {
      assert es + [DoStop] + more[..0] == es + [DoStop] && (es + [DoStop])[..|es|] == es;
    } else {
      hide *;
      StopSoFar(device, base, es, more, n - 1);
      var t := Run(device, base, es + [DoStop] + more[..n - 1]);
      EndsStopUndoes(t, s.slot.value.value, Ids(s), s.now, more[..n - 1], more[n - 1]);
      StopGoesOn(device, base, t, s.slot.value.value, Ids(s), s.now, more[..n - 1], more[n - 1]);
      RunOneMore(device, base, es + [DoStop], more, n - 1);
      assert more[..n - 1] + [more[n - 1]] == more[..n];
    }
  }

  /**
   * Exactly how long a stop lasts, in every run: until the first new start, or the first message of the
   * same request with another status that is not lost and comes no later than RevivableUntil.
   */
  lemma {:induction false} StopLastsExactlyUntil(device: string, base: string, es: seq<Event>, more: seq<Event>)
    requires Peek(Run(device, base, es).slot, Run(device, base, es).now).Some?
    ensures
      var s := Run(device, base, es);
      (forall n :: 0 <= n <= |more| ==> IsStopped(Run(device, base, es + [DoStop] + more[..n])))
      <==> (forall n :: 0 <= n < |more| ==> !EndsStop(s.slot.value.value, Ids(s), s.now, more[..n], more[n]))
  {
    var s := Run(device, base, es);
    var stopped, known := s.slot.value.value, Ids(s);
    if forall n :: 0 <= n < |more| ==> !EndsStop(stopped, known, s.now, more[..n], more[n]) {
      forall n | 0 <= n <= |more| ensures IsStopped(Run(device, base, es + [DoStop] + more[..n])) {
        StopSoFar(device, base, es, more, n);
      }
    } else {
      var n :| 0 <= n < |more| && EndsStop(stopped, known, s.now, more[..n], more[n]);
      SomeEndIsFirst(device, base, es, more, n);
    }
  }

  /** The first event that ends the stop takes the session out of STOPPED. */
  lemma FirstEndOfStop(device: string, base: string, es: seq<Event>, more: seq<Event>, n: nat)
    requires Peek(Run(device, base, es).slot, Run(device, base, es).now).Some? && n < |more|
    requires
      var s := Run(device, base, es);
      && EndsStop(s.slot.value.value, Ids(s), s.now, more[..n], more[n])
      && forall k :: 0 <= k < n ==> !EndsStop(s.slot.value.value, Ids(s), s.now, more[..k], more[k])
    ensures !IsStopped(Run(device, base, es + [DoStop] + more[..n + 1]))
  {
    var s := Run(device, base, es);
    var stopped, known := s.slot.value.value, Ids(s);
    hide *;
    StopSoFar(device, base, es, more, n);
    var t := Run(device, base, es + [DoStop] + more[..n]);
    EndsStopUndoes(t, stopped, known, s.now, more[..n], more[n]);
    WhileStopped(t, stopped, known, s.now, more[..n]);
    StopStep(device, base, t, more[n]);
    RunOneMore(device, base, es + [DoStop], more, n);
  }

  lemma {:induction false} SomeEndIsFirst(device: string, base: string, es: seq<Event>, more: seq<Event>, n: nat)
    requires Peek(Run(device, base, es).slot, Run(device, base, es).now).Some? && n < |more|
    requires
      var s := Run(device, base, es);
      EndsStop(s.slot.value.value, Ids(s), s.now, more[..n], more[n])
    ensures exists m :: 0 <= m <= |more| && !IsStopped(Run(device, base, es + [DoStop] + more[..m]))
  {
    var s := Run(device, base, es);
    var stopped, known := s.slot.value.value, Ids(s);
    hide *;
    if k: nat :| k < n && EndsStop(stopped, known, s.now, more[..k], more[k]) {
      SomeEndIsFirst(device, base, es, more, k);
    } else {
      FirstEndOfStop(device, base, es, more, n);
    }
  }

  lemma WhileStopped(s: State, stopped: Session, known: set<string>, start: int, more: seq<Event>)
    requires StillStopped(s, stopped, known, start, more)
    ensures IsStopped(s)
  {
  }

  /**
   * A stop the device acknowledges can be undone far later than 60 s: a READY of the same request revives
   * the session at any time up to its own expiry.
   */
  lemma AcknowledgedStopCanBeRevived(device: string, base: string, es: seq<Event>, ack: nat, wait: nat)
    requires Peek(Run(device, base, es).slot, Run(device, base, es).now).Some? && ack <= MS * STOPPED_SECONDS
    requires
      var s := Run(device, base, es);
      s.now + ack + wait <= s.slot.value.value.expiresAt
    ensures
      var s := Run(device, base, es);
      var id := s.slot.value.value.requestId;
      var stopped := Step(device, base, s, DoStop);
      var acked := Step(device, base, stopped.(now := s.now + ack), DoStatus(StatusMessage(id, Stopped, None, None), false));
      var t := Step(device, base, acked.(now := s.now + ack + wait), DoStatus(StatusMessage(id, Ready, None, None), false));
      IsStopped(stopped) && IsStopped(acked) && t.slot.value.value.status == Ready
  {
    CeilBounds(Run(device, base, es).slot.value.value.expiresAt - (Run(device, base, es).now + ack));
  }

  /** For example 50 minutes after the stop of an hour's stream. */
  lemma RevivedAfterFiftyMinutes(device: string, base: string, id: string, user: string)
    ensures
      var start := [DoStart(id, user, Some(3600))];
      var acked := start + [DoStop] + [DoStatus(StatusMessage(id, Stopped, None, None), false)];
      var late := acked + [Tick(3000 * MS)] + [DoStatus(StatusMessage(id, Ready, None, None), false)];
      && IsStopped(Run(device, base, acked))
      && Run(device, base, late).slot.Some? && Run(device, base, late).slot.value.value.status == Ready
  {
    var start := [DoStart(id, user, Some(3600))];
    assert start[..0] == [];
    assert Run(device, base, []) == INIT;
    var s := Step(device, base, INIT, start[0]);
    assert Run(device, base, start) == s && s.slot.value.value.requestId == id && s.now == 0;
    var stop := start + [DoStop];
    var acked := stop + [DoStatus(StatusMessage(id, Stopped, None, None), false)];
    var waited := acked + [Tick(3000 * MS)];
    var late := waited + [DoStatus(StatusMessage(id, Ready, None, None), false)];
    assert stop[..|stop| - 1] == start && acked[..|acked| - 1] == stop;
    assert waited[..|waited| - 1] == acked && late[..|late| - 1] == waited;
    hide Run;
    assert Run(device, base, acked).now == 0;
    AcknowledgedStopCanBeRevived(device, base, start, 0, 3000 * MS);
  }

  // ----- The services -----

  lemma DeviceHasItsOwnKey(device: string)
    ensures forall d :: d != device ==> SessionKey(d) != SessionKey(device)
  {
    forall d: string | d != device ensures SessionKey(d) != SessionKey(device) {
      Keys.KeysNeverCollide(Keys.LiveStream, d, Keys.LiveStream, device);
    }
  }

  /** The deadline is the first whole number of seconds from now that reaches the expiry, or 60 s if that is later. */
  predicate IsWholeSecondsLeft(deadline: Option<int>, now: int, expiresAt: int) {
    && deadline.Some? && (deadline.value - now) % 1000 == 0
    && expiresAt <= deadline.value && now + 60000 <= deadline.value
    && (deadline.value == now + 60000 || deadline.value - 1000 < expiresAt)
  }

  class SessionServices {
    const redis: RedisService<Session>
    const webRtcBase: string
    var commands: seq<(string, string)>

    constructor (redis: RedisService<Session>, webRtcBase: string)
      ensures this.redis == redis && this.webRtcBase == webRtcBase && commands == []
    {
      this.redis, this.webRtcBase := redis, webRtcBase;
      commands := [];
    }

    ghost function View(device: string): Option<Entry<Session>>
      reads redis
    {
      Slot(redis.entries, SessionKey(device))
    }

    /** LiveStreamsService.start */
    method StartStream(now: int, device: string, user: string, duration: Option<Duration>, requestId: string)
      modifies redis, this`commands
      ensures View(device) == Start(requestId, device, user, now, DurationOf(duration))
      ensures
        var expires := now + (if duration.Some? then duration.value else 300) * 1000;
        View(device) == Some(Entry(Session(requestId, device, Starting, None, None, user, now, expires, None), Some(expires)))
      ensures forall d :: d != device ==> View(d) == old(View(d))
      ensures commands == old(commands) + [("gnss/" + device + "/command/start_stream", requestId)]
    {
      DeviceHasItsOwnKey(device);
      var seconds := if duration.Some? then duration.value else DEFAULT_DURATION_SECONDS;
      var session := Session(requestId, device, Starting, None, None, user, now, now + seconds * MS, None);
      redis.SetexKey(now, SessionKey(device), seconds, session);
      commands := commands + [("gnss/" + device + "/command/start_stream", requestId)];
    }

    /** LiveStreamsService.stop; None is the not-found error. */
    method StopStream(now: int, device: string) returns (stopped: Option<Session>)
      modifies redis, this`commands
      ensures View(device) == Stop(old(View(device)), now)
      ensures
        var current := Peek(old(View(device)), now);
        View(device) == if current.None? then old(View(device))
                        else Some(Entry(current.value.(status := Stopped, webrtcUrl := None), Some(now + 60000)))
      ensures forall d :: d != device ==> View(d) == old(View(d))
      ensures stopped.Some? <==> Peek(old(View(device)), now).Some?
      ensures stopped.Some? ==> View(device).Some? && stopped.value == View(device).value.value
      ensures commands
           == old(commands) + if stopped.Some? then [("gnss/" + device + "/command/stop_stream", stopped.value.requestId)] else []
    {
      DeviceHasItsOwnKey(device);
      var current := redis.GetKey(now, SessionKey(device));
      if current.None? {
        assert commands + [] == commands;
        return None;
      }
      var session := current.value.(status := Stopped, webrtcUrl := None);
      redis.SetexKey(now, SessionKey(device), STOPPED_SECONDS, session);
      commands := commands + [("gnss/" + device + "/command/stop_stream", session.requestId)];
      return Some(session);
    }

    /** MqttService.handleStreamStatus */
    method HandleStreamStatus(now: int, device: string, m: StatusMessage, unreachable: bool)
      modifies redis
      ensures View(device) == Receive(old(View(device)), now, m, WebRtcUrl(webRtcBase, device), unreachable)
      ensures
        var current := Peek(old(View(device)), now);
        if current.None? || current.value.requestId != m.requestId
           || (m.status == Ready && m.rtspUrl.Some? && m.rtspUrl.value != "" && unreachable)
        then View(device) == old(View(device))
        else
          && View(device).Some?
          && View(device).value.value == current.value.(
               status := m.status,
               rtspUrl := if m.rtspUrl.Some? then m.rtspUrl else current.value.rtspUrl,
               webrtcUrl := if m.status == Ready then Some(webRtcBase + "/device-" + device + "/") else current.value.webrtcUrl,
               errorMessage := m.errorMessage)
          && IsWholeSecondsLeft(View(device).value.deadline, now, current.value.expiresAt)
      ensures forall d :: d != device ==> View(d) == old(View(d))
    {
      DeviceHasItsOwnKey(device);
      var current := redis.GetKey(now, SessionKey(device));
      if current.None? || current.value.requestId != m.requestId {
        return;
      }
      if m.status == Ready && m.rtspUrl.Some? && m.rtspUrl.value != "" && unreachable {
        return;
      }
      var session := current.value.(
        status := m.status,
        rtspUrl := if m.rtspUrl.Some? then m.rtspUrl else current.value.rtspUrl,
        webrtcUrl := if m.status == Ready then Some(WebRtcUrl(webRtcBase, device)) else current.value.webrtcUrl,
        errorMessage := m.errorMessage);
      var ttlSeconds := Max(CeilSeconds(session.expiresAt - now), 60);
      redis.SetexKey(now, SessionKey(device), ttlSeconds, session);
    }
  }
}
