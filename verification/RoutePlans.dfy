/**
 * Route plans (RoutePlansService) with the rule of one ACTIVE plan per device, and the deviation
 * check that relies on it (RouteDeviationService). Each handler is one atomic step.
 */
module RoutePlans {
  import opened Base
  import opened TtlStore
  import Keys
  import Text

  type Id = string

  datatype Status = Planned | Active | Completed | Cancelled

  datatype Plan = Plan(
    device: string,
    owner: Option<string>,
    status: Status,
    activatedAt: Option<int>,
    completedAt: Option<int>,
    createdAt: int,
    deleted: bool,
    hasGeom: bool,
    threshold: real)

  type Plans = map<Id, Plan>

  /** Who asks: a user, or an administrator who may touch every plan. */
  datatype Requester = Requester(user: string, isAdmin: bool)

  datatype Reply = Done | NotFound | Forbidden | Conflict

  predicate Terminal(s: Status) {
    s == Completed || s == Cancelled
  }

  /** findOne: soft-deleted rows are invisible, others are checked for ownership. */
  function Find(plans: Plans, id: Id, who: Requester): Reply {
    if id !in plans || plans[id].deleted then NotFound
    else if !who.isAdmin && plans[id].owner != Some(who.user) then Forbidden
    else Done
  }

  /** UPDATE ... WHERE device AND status = ACTIVE: soft-deleted rows are not excluded. */
  function CancelActive(plans: Plans, device: string, now: int): Plans {
    map i | i in plans ::
      if plans[i].device == device && plans[i].status == Active
      then plans[i].(status := Cancelled, completedAt := Some(now)) else plans[i]
  }

  function Activate(plans: Plans, id: Id, who: Requester, now: int): (Plans, Reply) {
    var found := Find(plans, id, who);
    if found != Done then (plans, found)
    else if Terminal(plans[id].status) then (plans, Conflict)
    else
      var freed := CancelActive(plans, plans[id].device, now);
      (freed[id := freed[id].(status := Active, activatedAt := Some(now), completedAt := None)], Done)
  }

  /** complete and cancel set their status from any status. */
  function Finish(plans: Plans, id: Id, who: Requester, status: Status, now: int): (Plans, Reply) {
    var found := Find(plans, id, who);
    if found != Done then (plans, found)
    else (plans[id := plans[id].(status := status, completedAt := Some(now))], Done)
  }

  function Remove(plans: Plans, id: Id, who: Requester): (Plans, Reply) {
    var found := Find(plans, id, who);
    if found != Done then (plans, found)
    else (plans[id := plans[id].(deleted := true)], Done)
  }

  function NewPlan(device: string, owner: Option<string>, hasGeom: bool, threshold: real, now: int): Plan {
    Plan(device, owner, Planned, None, None, now, false, hasGeom, threshold)
  }

  // ----- Runs -----

  datatype State = State(now: int, plans: Plans)

  datatype Event =
    | DoCreate(newId: Id, device: string, owner: Option<string>, hasGeom: bool, threshold: real)
    | DoActivate(id: Id, who: Requester)
    | DoComplete(id: Id, who: Requester)
    | DoCancel(id: Id, who: Requester)
    | DoRemove(id: Id, who: Requester)
    | Tick(elapsed: nat)

  const INIT := State(0, map[])

  /** Ids are generated fresh: a create under a used id does not happen. */
  function Step(s: State, e: Event): State {
    match e
    case Tick(d) => s.(now := s.now + d)
    case DoCreate(id, device, owner, hasGeom, threshold) =>
      if id in s.plans then s else s.(plans := s.plans[id := NewPlan(device, owner, hasGeom, threshold, s.now)])
    case DoActivate(id, who) => s.(plans := Activate(s.plans, id, who, s.now).0)
    case DoComplete(id, who) => s.(plans := Finish(s.plans, id, who, Completed, s.now).0)
    case DoCancel(id, who) => s.(plans := Finish(s.plans, id, who, Cancelled, s.now).0)
    case DoRemove(id, who) => s.(plans := Remove(s.plans, id, who).0)
  }

  function Run(es: seq<Event>): State {
    if es == [] then INIT else Step(Run(es[..|es| - 1]), es[|es| - 1])
  }

  /** What the status says about the two timestamps. */
  ghost predicate PlanInv(p: Plan, now: int) {
    match p.status
    case Planned => p.activatedAt.None? && p.completedAt.None?
    case Active => p.activatedAt.Some? && p.activatedAt.value <= now && p.completedAt.None?
    case _ =>
      && p.completedAt.Some? && p.completedAt.value <= now
      && (p.activatedAt.Some? ==> p.activatedAt.value <= p.completedAt.value)
  }

  ghost predicate OneActivePerDevice(plans: Plans) {
    forall i, j ::
      (i in plans && j in plans && plans[i].device == plans[j].device
       && plans[i].status == Active && plans[j].status == Active)
      ==> i == j
  }

  ghost predicate Inv(s: State) {
    (forall i :: i in s.plans ==> PlanInv(s.plans[i], s.now)) && OneActivePerDevice(s.plans)
  }

  lemma CancelKeepsInv(plans: Plans, device: string, now: int)
    requires forall i :: i in plans ==> PlanInv(plans[i], now)
    requires OneActivePerDevice(plans)
    ensures forall i :: i in plans ==> PlanInv(CancelActive(plans, device, now)[i], now)
    ensures OneActivePerDevice(CancelActive(plans, device, now))
    ensures forall i :: i in plans && plans[i].device == device ==> CancelActive(plans, device, now)[i].status != Active
  {
  }

  lemma ActivateKeepsInv(s: State, id: Id, who: Requester)
    requires Inv(s)
    ensures Inv(Step(s, DoActivate(id, who)))
  {
    if id in s.plans {
      CancelKeepsInv(s.plans, s.plans[id].device, s.now);
    }
  }

  lemma StepKeepsInv(s: State, e: Event)
    requires Inv(s)
    ensures Inv(Step(s, e))
  {
    if e.DoActivate? {
      ActivateKeepsInv(s, e.id, e.who);
    } else {
      var t := Step(s, e);
      forall i | i in t.plans ensures PlanInv(t.plans[i], t.now) {
        if i in s.plans {
          assert PlanInv(s.plans[i], s.now);
        }
      }
    }
  }

  lemma {:induction false} RunKeepsInv(es: seq<Event>)
    ensures Inv(Run(es))
  {
    if es == [] {
    } else {
      RunKeepsInv(es[..|es| - 1]);
      StepKeepsInv(Run(es[..|es| - 1]), es[|es| - 1]);
    }
  }

  /** In every run, soft-deleted plans counted, a device has at most one ACTIVE plan. */
  lemma {:induction false} OneActive(es: seq<Event>, i: Id, j: Id)
    requires i in Run(es).plans && j in Run(es).plans
    requires Run(es).plans[i].status == Run(es).plans[j].status == Active
    requires Run(es).plans[i].device == Run(es).plans[j].device
    ensures i == j
  {
    RunKeepsInv(es);
  }

  /** ACTIVE means activated and not completed; COMPLETED or CANCELLED means completed, and not before activation. */
  lemma TimestampsFollowStatus(es: seq<Event>, i: Id)
    requires i in Run(es).plans
    ensures
      var p := Run(es).plans[i];
      && (p.status == Active ==> p.activatedAt.Some? && p.completedAt.None?)
      && (p.status == Planned ==> p.activatedAt.None? && p.completedAt.None?)
      && (Terminal(p.status) ==> p.completedAt.Some? && (p.activatedAt.Some? ==> p.activatedAt.value <= p.completedAt.value))
  {
    RunKeepsInv(es);
    assert PlanInv(Run(es).plans[i], Run(es).now);
  }

  /** PLANNED, then ACTIVE, then COMPLETED or CANCELLED. */
  function Stage(s: Status): nat {
    match s
    case Planned => 0
    case Active => 1
    case _ => 2
  }

  lemma StepAdvances(s: State, e: Event, i: Id)
    requires i in s.plans
    ensures i in Step(s, e).plans
    ensures Stage(s.plans[i].status) <= Stage(Step(s, e).plans[i].status)
    ensures s.plans[i].deleted ==> Step(s, e).plans[i].deleted
    ensures s.plans[i].device == Step(s, e).plans[i].device && s.plans[i].owner == Step(s, e).plans[i].owner
  {
  }

  /** Whatever happens later, no plan goes back: COMPLETED and CANCELLED plans are never PLANNED or ACTIVE again. */
  lemma {:induction false} StagesNeverGoBack(es: seq<Event>, more: seq<Event>, i: Id)
    requires i in Run(es).plans
    ensures i in Run(es + more).plans
    ensures Stage(Run(es).plans[i].status) <= Stage(Run(es + more).plans[i].status)
    decreases |more|
  {
    if more == [] {
      assert es + more == es;
    } else {
      var shorter := more[..|more| - 1];
      StagesNeverGoBack(es, shorter, i);
      assert (es + more)[..|es + more| - 1] == es + shorter;
      StepAdvances(Run(es + shorter), more[|more| - 1], i);
    }
  }

  /**
   * A successful activation makes the plan the device's only ACTIVE one, cancels the one that was
   * active before, and leaves every other plan, in particular of other devices, unchanged.
   */
  lemma ActivationIsLocal(es: seq<Event>, id: Id, who: Requester, i: Id)
    requires Activate(Run(es).plans, id, who, Run(es).now).1 == Done
    requires i in Run(es).plans && i != id
    ensures
      var before := Run(es).plans;
      var after := Activate(before, id, who, Run(es).now).0;
      && after.Keys == before.Keys && after[id].status == Active
      && (after[i] == before[i]
          <==> before[i].device != before[id].device || before[i].status != Active)
      && (after[i] != before[i] ==> after[i] == before[i].(status := Cancelled, completedAt := Some(Run(es).now))
                                    && before[id].status == Planned)
  {
    RunKeepsInv(es);
  }

  // ----- What a status says about the past -----

  /** The plan is there, not deleted, and the requester owns it or is an administrator. */
  predicate MayTouch(plans: Plans, id: Id, who: Requester) {
    id in plans && !plans[id].deleted && (who.isAdmin || plans[id].owner == Some(who.user))
  }

  /** The status the events alone give a plan. */
  function StatusAfter(es: seq<Event>, id: Id): Option<Status> {
    if es == [] then None
    else
      var init, plans := es[..|es| - 1], Run(es[..|es| - 1]).plans;
      var before := StatusAfter(init, id);
      match es[|es| - 1]
      case Tick(_) => before
      case DoRemove(_, _) => before
      case DoCreate(i, _, _, _, _) => if i == id && before.None? then Some(Planned) else before
      case DoComplete(i, who) => if i == id && MayTouch(plans, i, who) then Some(Completed) else before
      case DoCancel(i, who) => if i == id && MayTouch(plans, i, who) then Some(Cancelled) else before
      case DoActivate(i, who) =>
        var target := StatusAfter(init, i);
        if !MayTouch(plans, i, who) || !(target == Some(Planned) || target == Some(Active)) then before
        else if i == id then Some(Active)
        else if before == Some(Active) && id in plans && plans[id].device == plans[i].device then Some(Cancelled)
        else before
  }

  /**
   * Over every run a plan is PLANNED until something else happens to it, ACTIVE since its last successful
   * activation, COMPLETED since it was completed, and CANCELLED since it was cancelled or superseded.
   */
  lemma {:induction false} StatusFollowsEvents(es: seq<Event>, id: Id)
    ensures StatusAfter(es, id) == if id in Run(es).plans then Some(Run(es).plans[id].status) else None
  {
    if es == [] {
    } else {
      var init, e := es[..|es| - 1], es[|es| - 1];
      StatusFollowsEvents(init, id);
      if e.DoActivate? {
        StatusFollowsEvents(init, e.id);
      }
    }
  }

  // ----- The deviation check -----

  /** The rows the query may choose from, before ORDER BY and LIMIT 1. */
  function Candidates(plans: Plans, device: string): set<Id> {
    set i | i in plans && plans[i].device == device && plans[i].status == Active && !plans[i].deleted && plans[i].hasGeom
  }

  /** The ordering and the LIMIT never decide anything: there is at most one row to choose from. */
  lemma OrderingIsIrrelevant(es: seq<Event>, device: string)
    ensures |Candidates(Run(es).plans, device)| <= 1
  {
    RunKeepsInv(es);
    var c := Candidates(Run(es).plans, device);
    if c != {} {
      var i :| i in c;
      assert c == {i};
    }
  }

  /** ORDER BY activated_at DESC NULLS LAST, createdAt DESC */
  predicate SortsAhead(p: Plan, q: Plan) {
    if p.activatedAt == q.activatedAt then p.createdAt > q.createdAt
    else p.activatedAt.Some? && (q.activatedAt.None? || p.activatedAt.value > q.activatedAt.value)
  }

  /** A row activated at a and created at c may stand before one of b and d: later first, missing activations last. */
  predicate ComesFirst(a: Option<int>, c: int, b: Option<int>, d: int) {
    match (a, b)
    case (None, Some(_)) => false
    case (Some(_), None) => true
    case (None, None) => d <= c
    case (Some(x), Some(y)) => y < x || (x == y && d <= c)
  }

  /** Nothing sorts ahead of it; rows that tie may come in either order. */
  predicate IsFirst(plans: Plans, rows: set<Id>, i: Id)
    requires rows <= plans.Keys
  {
    i in rows && forall j :: j in rows ==> !SortsAhead(plans[j], plans[i])
  }

  lemma {:induction false} SomeCandidateIsFirst(plans: Plans, rows: set<Id>)
    requires rows <= plans.Keys && rows != {}
    ensures exists i :: i in rows && IsFirst(plans, rows, i)
  {
    var i :| i in rows;
    if rows == {i} {
      assert IsFirst(plans, rows, i);
    } else {
      var rest := rows - {i};
      assert rows == rest + {i};
      SomeCandidateIsFirst(plans, rest);
      var j :| j in rest && IsFirst(plans, rest, j);
      assert IsFirst(plans, rows, if SortsAhead(plans[i], plans[j]) then i else j);
    }
  }

  /** Colon-free ids never share a cooldown, neither across devices nor across plans. */
  lemma DeviationKeysDiffer(device: string, id: Id, device': string, id': Id)
    requires ':' !in device && ':' !in id && ':' !in device' && ':' !in id'
    ensures DeviationKey(device, id) == DeviationKey(device', id') <==> device == device' && id == id'
  {
    Keys.KeysNeverCollide(Keys.Deviation, device + [':'] + id, Keys.Deviation, device' + [':'] + id');
    Text.SplitTwo(device, id, ':');
    Text.SplitTwo(device', id', ':');
    assert [device, id][0] == device && [device, id][1] == id;
    assert [device', id'][0] == device' && [device', id'][1] == id';
  }

  datatype Deviation = Deviation(device: string, plan: Id, at: int)

  function DeviationKey(device: string, id: Id): string {
    Keys.Key(Keys.Deviation, device + [':'] + id)
  }

  class RouteDeviationService {
    const routePlans: RoutePlansService
    const redis: RedisService<int>
    var alerts: seq<Deviation>

    constructor (routePlans: RoutePlansService, redis: RedisService<int>)
      ensures this.routePlans == routePlans && this.redis == redis && alerts == []
    {
      this.routePlans, this.redis := routePlans, redis;
      alerts := [];
    }

    /**
     * The first candidate in the query's order, if there is any, is alerted on exactly when it is too far
     * away and under no cooldown. `distance` is what ST_Distance answers for each plan.
     */
    method CheckDeviation(now: int, device: string, distance: Id -> real, cooldown: Lifetime)
      returns (chosen: Option<Id>)
      modifies this`alerts, redis
      ensures chosen.None? <==> Candidates(routePlans.plans, device) == {}
      ensures chosen.None? <==>
                forall i :: i in routePlans.plans && routePlans.plans[i].device == device && routePlans.plans[i].status == Active
                            ==> routePlans.plans[i].deleted || !routePlans.plans[i].hasGeom
      ensures chosen.Some? ==>
                && chosen.value in routePlans.plans
                && var p := routePlans.plans[chosen.value];
                && p.device == device && p.status == Active && !p.deleted && p.hasGeom
                && forall j :: j in Candidates(routePlans.plans, device) ==>
                     ComesFirst(p.activatedAt, p.createdAt, routePlans.plans[j].activatedAt, routePlans.plans[j].createdAt)
      ensures chosen.None? ==> alerts == old(alerts) && redis.entries == old(redis.entries)
      ensures chosen.Some? ==>
        var i := chosen.value;
        && i in routePlans.plans && IsFirst(routePlans.plans, Candidates(routePlans.plans, device), i)
        && var raised := distance(i) > routePlans.plans[i].threshold
                         && Get(old(redis.entries), now, DeviationKey(device, i)).None?;
        && alerts == old(alerts) + (if raised then [Deviation(device, i, now)] else [])
        && redis.entries
           == (if raised then Setex(old(redis.entries), now, DeviationKey(device, i), cooldown, 1) else old(redis.entries))
    {
      var rows := Candidates(routePlans.plans, device);
      assert forall i :: i in rows <==>
               && i in routePlans.plans && routePlans.plans[i].device == device && routePlans.plans[i].status == Active
               && !routePlans.plans[i].deleted && routePlans.plans[i].hasGeom;
      if rows == {} {
        assert forall i :: i !in rows;
        return None;
      }
      SomeCandidateIsFirst(routePlans.plans, rows);
      var i :| i in rows && IsFirst(routePlans.plans, rows, i);
      assert forall j :: j in rows ==> !SortsAhead(routePlans.plans[j], routePlans.plans[i]);
      chosen := Some(i);
      if distance(i) <= routePlans.plans[i].threshold {
        return;
      }
      var alreadyAlerted := redis.GetKey(now, DeviationKey(device, i));
      if alreadyAlerted.Some? {
        return;
      }
      alerts := alerts + [Deviation(device, i, now)];
      redis.SetexKey(now, DeviationKey(device, i), cooldown, 1);
    }
  }

  class RoutePlansService {
    var plans: Plans

    constructor ()
      ensures plans == map[]
    {
      plans := map[];
    }

    method FindOne(id: Id, who: Requester) returns (r: Result<Plan, Reply>)
      ensures r.Ok? <==> Find(plans, id, who) == Done
      ensures r.Ok? ==> id in plans && r.value == plans[id]
      ensures r.Err? ==> r.error == Find(plans, id, who)
      ensures r == if id !in plans || plans[id].deleted then Err(NotFound)
                   else if !who.isAdmin && plans[id].owner != Some(who.user) then Err(Forbidden) else Ok(plans[id])
    {
      if id !in plans || plans[id].deleted {
        return Err(NotFound);
      }
      if !who.isAdmin && plans[id].owner != Some(who.user) {
        return Err(Forbidden);
      }
      return Ok(plans[id]);
    }

    method CreatePlan(id: Id, device: string, owner: Option<string>, hasGeom: bool, threshold: real, now: int)
      requires id !in plans
      modifies this
      ensures plans == old(plans)[id := NewPlan(device, owner, hasGeom, threshold, now)]
      ensures plans[id] == Plan(device, owner, Planned, None, None, now, false, hasGeom, threshold)
    {
      plans := plans[id := Plan(device, owner, Planned, None, None, now, false, false, threshold)];
      if hasGeom {
        plans := plans[id := plans[id].(hasGeom := true)];
      }
    }

    method ActivatePlan(id: Id, who: Requester, now: int) returns (r: Reply)
      modifies this
      ensures (plans, r) == Activate(old(plans), id, who, now)
      ensures r == NotFound <==> id !in old(plans) || old(plans)[id].deleted
      ensures r == Forbidden <==>
                id in old(plans) && !old(plans)[id].deleted && !who.isAdmin && old(plans)[id].owner != Some(who.user)
      ensures r == Conflict ==> old(plans)[id].status == Completed || old(plans)[id].status == Cancelled
      ensures r != Done ==> plans == old(plans)
      ensures r == Done ==>
                && plans.Keys == old(plans).Keys && id in plans
                && (old(plans)[id].status == Planned || old(plans)[id].status == Active)
                && plans[id] == old(plans)[id].(status := Active, activatedAt := Some(now), completedAt := None)
                && forall i :: i in plans && i != id ==>
                     plans[i] == if old(plans)[i].device == old(plans)[id].device && old(plans)[i].status == Active
                                 then old(plans)[i].(status := Cancelled, completedAt := Some(now)) else old(plans)[i]
    {
      var found := FindOne(id, who);
      if found.Err? {
        return found.error;
      }
      if found.value.status == Completed || found.value.status == Cancelled {
        return Conflict;
      }
      plans := CancelActive(plans, found.value.device, now);
      plans := plans[id := plans[id].(status := Active, activatedAt := Some(now), completedAt := None)];
      return Done;
    }

    method CompletePlan(id: Id, who: Requester, now: int) returns (r: Reply)
      modifies this
      ensures (plans, r) == Finish(old(plans), id, who, Completed, now)
      ensures r == NotFound <==> id !in old(plans) || old(plans)[id].deleted
      ensures r == Forbidden <==>
                id in old(plans) && !old(plans)[id].deleted && !who.isAdmin && old(plans)[id].owner != Some(who.user)
      ensures r != Conflict && (r != Done ==> plans == old(plans))
      ensures r == Done ==> plans == old(plans)[id := old(plans)[id].(status := Completed, completedAt := Some(now))]
    {
      var found := FindOne(id, who);
      if found.Err? {
        return found.error;
      }
      plans := plans[id := plans[id].(status := Completed, completedAt := Some(now))];
      return Done;
    }

    method CancelPlan(id: Id, who: Requester, now: int) returns (r: Reply)
      modifies this
      ensures (plans, r) == Finish(old(plans), id, who, Cancelled, now)
      ensures r == NotFound <==> id !in old(plans) || old(plans)[id].deleted
      ensures r == Forbidden <==>
                id in old(plans) && !old(plans)[id].deleted && !who.isAdmin && old(plans)[id].owner != Some(who.user)
      ensures r != Conflict && (r != Done ==> plans == old(plans))
      ensures r == Done ==> plans == old(plans)[id := old(plans)[id].(status := Cancelled, completedAt := Some(now))]
    {
      var found := FindOne(id, who);
      if found.Err? {
        return found.error;
      }
      plans := plans[id := plans[id].(status := Cancelled, completedAt := Some(now))];
      return Done;
    }

    method RemovePlan(id: Id, who: Requester) returns (r: Reply)
      modifies this
      ensures (plans, r) == Remove(old(plans), id, who)
      ensures r == NotFound <==> id !in old(plans) || old(plans)[id].deleted
      ensures r == Forbidden <==>
                id in old(plans) && !old(plans)[id].deleted && !who.isAdmin && old(plans)[id].owner != Some(who.user)
      ensures r != Conflict && (r != Done ==> plans == old(plans))
      ensures r == Done ==> plans == old(plans)[id := old(plans)[id].(deleted := true)]
    {
      var found := FindOne(id, who);
      if found.Err? {
        return found.error;
      }
      plans := plans[id := plans[id].(deleted := true)];
      return Done;
    }
  }
}
