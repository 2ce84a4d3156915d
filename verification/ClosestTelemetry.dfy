/** Finding the telemetry point nearest in time (MediaLogsService.findClosestTelemetry). */
module ClosestTelemetry {
  import opened Base

  datatype Sample = Sample(device: string, at: int, lat: real, lng: real)

  function Abs(n: int): (r: int)
    ensures r >= 0 && (r == n || r == -n)
  {
    if n < 0 then -n else n
  }

  function Distance(s: Sample, time: int): int {
    Abs(s.at - time)
  }

  /** timestamp <= time ORDER BY timestamp DESC LIMIT 1; equal timestamps leave the choice open. */
  ghost predicate IsLastBefore(table: seq<Sample>, device: string, time: int, answer: Option<Sample>) {
    match answer
    case None => forall s :: s in table && s.device == device ==> time < s.at
    case Some(p) =>
      && p in table && p.device == device && p.at <= time
      && forall s :: s in table && s.device == device && s.at <= time ==> s.at <= p.at
  }

  /** timestamp > time ORDER BY timestamp ASC LIMIT 1 */
  ghost predicate IsFirstAfter(table: seq<Sample>, device: string, time: int, answer: Option<Sample>) {
    match answer
    case None => forall s :: s in table && s.device == device ==> s.at <= time
    case Some(p) =>
      && p in table && p.device == device && time < p.at
      && forall s :: s in table && s.device == device && time < s.at ==> p.at <= s.at
  }

  function Choose(before: Option<Sample>, after: Option<Sample>, time: int): Option<Sample> {
    match (before, after)
    case (None, None) => None
    case (None, Some(a)) => after
    case (Some(b), None) => before
    case (Some(b), Some(a)) => if Distance(b, time) <= Distance(a, time) then before else after
  }

  /** The reference: a point of the device at minimal time distance, an earlier one if that ties. */
  ghost predicate IsClosest(table: seq<Sample>, device: string, time: int, answer: Option<Sample>) {
    match answer
    case None => forall s :: s in table ==> s.device != device
    case Some(p) =>
      && p in table && p.device == device
      && (forall s :: s in table && s.device == device ==> Distance(p, time) <= Distance(s, time))
      && (forall s :: s in table && s.device == device && s.at <= time && Distance(s, time) == Distance(p, time) ==> p.at <= time)
  }

  /** One look to each side is enough, however the database breaks ties between equal timestamps. */
  lemma TwoNeighboursSuffice(table: seq<Sample>, device: string, time: int, before: Option<Sample>, after: Option<Sample>)
    requires IsLastBefore(table, device, time, before) && IsFirstAfter(table, device, time, after)
    ensures IsClosest(table, device, time, Choose(before, after, time))
  {
    match Choose(before, after, time)
    case None =>
      forall s | s in table ensures s.device != device {
        assert s.device == device ==> time < s.at && s.at <= time;
      }
    case Some(p) =>
      forall s | s in table && s.device == device ensures Distance(p, time) <= Distance(s, time) {
        if s.at <= time {
          assert before.Some? && s.at <= before.value.at;
        } else {
          assert after.Some? && after.value.at <= s.at;
        }
      }
  }

  /** A unique time determines the answer: any two closest points have the same timestamp. */
  lemma ClosestTimeIsUnique(table: seq<Sample>, device: string, time: int, a: Option<Sample>, b: Option<Sample>)
    requires IsClosest(table, device, time, a) && IsClosest(table, device, time, b)
    ensures a.Some? <==> b.Some?
    ensures a.Some? ==> a.value.at == b.value.at
  {
    if a.Some? && b.Some? {
      assert Distance(a.value, time) <= Distance(b.value, time) <= Distance(a.value, time);
    }
  }

  lemma {:induction false} LastBeforeExists(table: seq<Sample>, device: string, time: int) returns (answer: Option<Sample>)
    ensures IsLastBefore(table, device, time, answer)
  {
    answer := None;
    if table != [] {
      var init, s := table[..|table| - 1], table[|table| - 1];
      answer := LastBeforeExists(init, device, time);
      assert forall x :: x in table <==> x in init || x == s;
      if s.device == device && s.at <= time && (answer.None? || answer.value.at < s.at) {
        answer := Some(s);
      }
    }
  }

  lemma {:induction false} FirstAfterExists(table: seq<Sample>, device: string, time: int) returns (answer: Option<Sample>)
    ensures IsFirstAfter(table, device, time, answer)
  {
    answer := None;
    if table != [] {
      var init, s := table[..|table| - 1], table[|table| - 1];
      answer := FirstAfterExists(init, device, time);
      assert forall x :: x in table <==> x in init || x == s;
      if s.device == device && time < s.at && (answer.None? || s.at < answer.value.at) {
        answer := Some(s);
      }
    }
  }

  method QueryBefore(table: seq<Sample>, device: string, time: int) returns (before: Option<Sample>)
    ensures IsLastBefore(table, device, time, before)
  {
    ghost var some := LastBeforeExists(table, device, time);
    before := None;
    if b :| b in table && b.device == device && b.at <= time
            && forall s :: s in table && s.device == device && s.at <= time ==> s.at <= b.at {
      before := Some(b);
    } else {
      assert some.None?;
    }
  }

  method QueryAfter(table: seq<Sample>, device: string, time: int) returns (after: Option<Sample>)
    ensures IsFirstAfter(table, device, time, after)
  {
    ghost var some := FirstAfterExists(table, device, time);
    after := None;
    if a :| a in table && a.device == device && time < a.at
            && forall s :: s in table && s.device == device && time < s.at ==> a.at <= s.at {
      after := Some(a);
    } else {
      assert some.None?;
    }
  }

  /** No sample of p's device is nearer to the time, nor as near and earlier than the time when p is later. */
  ghost predicate NoneIsCloser(table: seq<Sample>, p: Sample, time: int) {
    forall s :: s in table && s.device == p.device ==>
      if p.at <= time then s.at <= p.at || time - p.at <= s.at - time
      else (time < s.at ==> p.at <= s.at) && (s.at <= time ==> p.at - time < time - s.at)
  }

  lemma ClosestMeansNoneIsCloser(table: seq<Sample>, device: string, time: int, p: Sample)
    requires IsClosest(table, device, time, Some(p))
    ensures NoneIsCloser(table, p, time)
  {
    forall s | s in table && s.device == p.device
      ensures if p.at <= time then s.at <= p.at || time - p.at <= s.at - time
              else (time < s.at ==> p.at <= s.at) && (s.at <= time ==> p.at - time < time - s.at)
    {
      assert Distance(p, time) <= Distance(s, time);
    }
  }

  function Coordinates(s: Option<Sample>): Option<(real, real)> {
    if s.Some? then Some((s.value.lat, s.value.lng)) else None
  }

  /** The two queries and the choice; the answer is the coordinates of a closest point. */
  method FindClosestTelemetry(table: seq<Sample>, device: string, time: int) returns (r: Option<(real, real)>)
    ensures exists chosen :: IsClosest(table, device, time, chosen) && r == Coordinates(chosen)
    ensures r.Some? ==>
              exists p :: p in table && p.device == device && r.value == (p.lat, p.lng) && NoneIsCloser(table, p, time)
    ensures r.None? <==> forall s :: s in table ==> s.device != device
  {
    var before := QueryBefore(table, device, time);
    var after := QueryAfter(table, device, time);
    TwoNeighboursSuffice(table, device, time, before, after);
    ghost var chosen := Choose(before, after, time);
    assert IsClosest(table, device, time, chosen);
    if chosen.Some? {
      ClosestMeansNoneIsCloser(table, device, time, chosen.value);
    }
    if before.None? && after.None? {
      return None;
    }
    if before.None? {
      return Some((after.value.lat, after.value.lng));
    }
    if after.None? {
      return Some((before.value.lat, before.value.lng));
    }
    if Abs(time - before.value.at) <= Abs(after.value.at - time) {
      return Some((before.value.lat, before.value.lng));
    }
    return Some((after.value.lat, after.value.lng));
  }
}
