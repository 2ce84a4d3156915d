/** The batch consumer and the speed and geofence checks it starts (TelemetryConsumer). */
module TelemetryConsumer {
  import opened Base
  import opened TtlStore
  import Keys
  import opened Geofences
  import opened FenceAlerts
  import SpeedLimit
  import opened TelemetryBatch

  const SPEEDING_COOLDOWN_SECONDS: Lifetime := 60

  /** A message without a value, with a value that fails to parse or validate, or with a valid point. */
  datatype Message = Empty | Malformed | Valid(point: Point)

  function ValidPoints(messages: seq<Message>): seq<Point> {
    if messages == [] then []
    else
      ValidPoints(messages[..|messages| - 1])
      + match messages[|messages| - 1]
        case Valid(p) => [p]
        case _ => []
  }

  /** The points are those of the valid messages: each message once, in order. */
  ghost predicate PicksValid(messages: seq<Message>, points: seq<Point>) {
    exists at: seq<nat> :: IsSelection(messages, points, at)
  }

  ghost predicate IsSelection(messages: seq<Message>, points: seq<Point>, at: seq<nat>) {
    && |at| == |points|
    && (forall j :: 0 <= j < |at| ==> at[j] < |messages| && messages[at[j]] == Valid(points[j]))
    && (forall j, k :: 0 <= j < k < |at| ==> at[j] < at[k])
    && (forall i :: 0 <= i < |messages| && messages[i].Valid? ==> i in at)
  }

  lemma {:induction false} ValidPointsAreSelected(messages: seq<Message>) returns (at: seq<nat>)
    ensures IsSelection(messages, ValidPoints(messages), at)
  {
    if messages == [] {
      at := [];
    } else {
      var n := |messages| - 1;
      var before := ValidPointsAreSelected(messages[..n]);
      assert forall i :: 0 <= i < n ==> messages[..n][i] == messages[i];
      at := before + if messages[n].Valid? then [n] else [];
      assert forall i :: i in before ==> i in at;
      assert messages[n].Valid? ==> at[|before|] == n;
      assert IsSelection(messages, ValidPoints(messages), at);
    }
  }

  /** So what a batch broadcasts, saves and checks is every valid message, exactly once and in order. */
  lemma ValidPointsAreThoseOfValidMessages(messages: seq<Message>)
    ensures PicksValid(messages, ValidPoints(messages))
  {
    var at := ValidPointsAreSelected(messages);
  }

  /** devicesService.findOne throws for an unknown device; a device may have no limit. */
  datatype DeviceLookup = UnknownDevice | Device(limit: Option<real>)

  datatype SpeedAlert = SpeedAlert(device: string, at: int, limit: real)

  function LimitKey(device: string): string {
    Keys.Key(Keys.DeviceLimit, "limit:" + device)
  }

  function SpeedingKey(device: string): string {
    Keys.Key(Keys.Speeding, device)
  }

  /** Every device has its own cache entry and its own cooldown. */
  lemma DevicesHaveTheirOwnKeys(a: string, b: string)
    ensures LimitKey(a) == LimitKey(b) <==> a == b
    ensures SpeedingKey(a) == SpeedingKey(b) <==> a == b
  {
    Keys.KeysNeverCollide(Keys.DeviceLimit, "limit:" + a, Keys.DeviceLimit, "limit:" + b);
    Keys.KeysNeverCollide(Keys.Speeding, a, Keys.Speeding, b);
    assert ("limit:" + a)[6..] == a && ("limit:" + b)[6..] == b;
  }

  class Consumer {
    const telemetry: TelemetryService
    const geofences: GeofencesService
    const limits: RedisService<real>
    const speedCooldowns: RedisService<int>
    const fenceCooldowns: RedisService<int>
    var broadcasts: seq<Point>
    var started: seq<Point>
    var speedAlerts: seq<SpeedAlert>
    var fenceAlerts: seq<Raised>
    ghost var suppressed: seq<Raised>

    constructor (telemetry: TelemetryService, geofences: GeofencesService, limits: RedisService<real>,
                 speedCooldowns: RedisService<int>, fenceCooldowns: RedisService<int>)
      ensures this.telemetry == telemetry && this.geofences == geofences && this.limits == limits
      ensures this.speedCooldowns == speedCooldowns && this.fenceCooldowns == fenceCooldowns
      ensures broadcasts == started == [] && speedAlerts == [] && fenceAlerts == suppressed == []
    {
      this.telemetry, this.geofences, this.limits := telemetry, geofences, limits;
      this.speedCooldowns, this.fenceCooldowns := speedCooldowns, fenceCooldowns;
      broadcasts, started, speedAlerts, fenceAlerts := [], [], [], [];
      suppressed := [];
    }

    /** The first loop of handleBatch: parse, broadcast and collect. */
    method ReceiveMessages(messages: seq<Message>) returns (validPoints: seq<Point>)
      modifies this`broadcasts
      ensures validPoints == ValidPoints(messages)
      ensures broadcasts == old(broadcasts) + validPoints
    {
      validPoints := [];
      for i := 0 to |messages|
        invariant validPoints == ValidPoints(messages[..i])
        invariant broadcasts == old(broadcasts) + validPoints
      {
        assert messages[..i + 1][..i] == messages[..i];
        match messages[i]
        case Empty => continue;
        case Malformed => continue;
        case Valid(p) =>
          validPoints := validPoints + [p];
          broadcasts := broadcasts + [p];
      }
      assert messages[..|messages|] == messages;
    }

    /** The second loop: start the checks of each point without awaiting them. */
    method StartChecks(validPoints: seq<Point>)
      modifies this`started
      ensures started == old(started) + validPoints
    {
      for i := 0 to |validPoints|
        invariant started == old(started) + validPoints[..i]
      {
        started := started + [validPoints[i]];
      }
      assert validPoints[..|validPoints|] == validPoints;
    }

    /**
     * Valid points are broadcast at once, then saved together; the checks start only if that worked.
     * `saveFails` is the database's choice.
     */
    method HandleBatch(messages: seq<Message>, saveFails: bool)
      modifies this`broadcasts, this`started, telemetry
      ensures broadcasts == old(broadcasts) + ValidPoints(messages)
      ensures telemetry.table
           == old(telemetry.table) + if saveFails then [] else OneByOne(ValidPoints(messages))
      ensures started == old(started) + if saveFails then [] else ValidPoints(messages)
    {
      assert OneByOne([]) == [];
      assert telemetry.table + [] == telemetry.table && started + [] == started;
      var validPoints := ReceiveMessages(messages);
      if |validPoints| == 0 || saveFails {
        return;
      }
      telemetry.SaveBatch(validPoints);
      StartChecks(validPoints);
    }

    /**
     * One uninterrupted speed check. An alert is raised exactly when the device moves faster than the
     * limit in use, that limit is set and not zero, and no cooldown is present; it starts a cooldown of 60 s.
     */
    method CheckSpeedViolation(now: int, device: string, speed: real, lookup: DeviceLookup)
      modifies this`speedAlerts, limits, speedCooldowns
      ensures
        var cached := Get(old(limits.entries), now, LimitKey(device));
        if speed <= 0.0 || (cached.None? && lookup.UnknownDevice?)
        then unchanged(this`speedAlerts, limits, speedCooldowns)
        else
          var limit := if cached.Some? then cached.value else SpeedLimit.Effective(lookup.limit);
          var alerts := SpeedLimit.Exceeds(speed, limit)
                        && Get(old(speedCooldowns.entries), now, SpeedingKey(device)).None?;
          && limits.entries == (if cached.Some? then old(limits.entries)
                                else Setex(old(limits.entries), now, LimitKey(device), SpeedLimit.LIMIT_CACHE_SECONDS, limit))
          && speedAlerts == old(speedAlerts) + (if alerts then [SpeedAlert(device, now, limit)] else [])
          && speedCooldowns.entries
             == (if alerts
                 then Setex(old(speedCooldowns.entries), now, SpeedingKey(device), SPEEDING_COOLDOWN_SECONDS, 1)
                 else old(speedCooldowns.entries))
      ensures
        var cached := Get(old(limits.entries), now, LimitKey(device));
        var limit := if cached.Some? then cached else if lookup.Device? then lookup.limit else None;
        if 0.0 < speed && limit.Some? && limit.value != 0.0 && limit.value < speed
           && Get(old(speedCooldowns.entries), now, SpeedingKey(device)).None?
        then speedAlerts == old(speedAlerts) + [SpeedAlert(device, now, limit.value)]
             && speedCooldowns.entries == old(speedCooldowns.entries)[SpeedingKey(device) := Entry(1, Some(now + 60000))]
        else speedAlerts == old(speedAlerts) && speedCooldowns.entries == old(speedCooldowns.entries)
      ensures
        var cached := Get(old(limits.entries), now, LimitKey(device));
        if 0.0 < speed && cached.None? && lookup.Device?
        then limits.entries == old(limits.entries)[LimitKey(device) :=
               Entry(if lookup.limit.Some? then lookup.limit.value else 0.0, Some(now + 300000))]
        else limits.entries == old(limits.entries)
    {
      if speed <= 0.0 {
        return;
      }
      var limit: real;
      var cached := limits.GetKey(now, LimitKey(device));
      if cached.Some? {
        limit := cached.value;
      } else {
        if lookup.UnknownDevice? {
          return;
        }
        limit := if lookup.limit.Some? then lookup.limit.value else 0.0;
        limits.SetexKey(now, LimitKey(device), SpeedLimit.LIMIT_CACHE_SECONDS, limit);
      }
      if limit == 0.0 || speed <= limit {
        return;
      }
      var alreadyAlerted := speedCooldowns.GetKey(now, SpeedingKey(device));
      if alreadyAlerted.Some? {
        return;
      }
      speedAlerts := speedAlerts + [SpeedAlert(device, now, limit)];
      speedCooldowns.SetexKey(now, SpeedingKey(device), SPEEDING_COOLDOWN_SECONDS, 1);
    }

    ghost function FenceWorld(now: int): World
      reads this, geofences, fenceCooldowns
    {
      World(now, geofences.states, fenceCooldowns.entries, fenceAlerts, suppressed)
    }

    /** One uninterrupted geofence check is one step of the world of fence alerts. */
    method CheckGeofenceViolation(now: int, device: string, rows: seq<Geofences.Row>)
      modifies this`fenceAlerts, this`suppressed, geofences, fenceCooldowns
      ensures FenceWorld(now) == Step(old(FenceWorld(now)), Observe(Check(device, rows)))
    {
      var violations := geofences.EvaluateGeofenceTransitions(device, rows);
      ghost var w := old(FenceWorld(now));
      for i := 0 to |violations|
        invariant geofences.states == Evaluate(w.states, device, rows).0
        invariant FenceWorld(now).(states := w.states) == HandleAll(w, device, violations[..i])
      {
        assert violations[..i + 1][..i] == violations[..i];
        var violation := violations[i];
        var key := CooldownKey(violation.alert, device, violation.fence);
        var alreadyAlerted := fenceCooldowns.GetKey(now, key);
        if alreadyAlerted.Some? {
          suppressed := suppressed + [Raised(violation.alert, device, violation.fence, now)];
          continue;
        }
        fenceAlerts := fenceAlerts + [Raised(violation.alert, device, violation.fence, now)];
        fenceCooldowns.SetexKey(now, key, GEOFENCE_COOLDOWN_SECONDS, 1);
      }
      assert violations[..|violations|] == violations;
    }
  }
}
