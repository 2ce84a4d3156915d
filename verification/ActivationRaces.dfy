/**
 * Activation without the atomicity RoutePlans assumes: activate runs no transaction, so its lookup,
 * its cancel-others update and its own update interleave with other requests.
 */
module ActivationRaces {
  import opened Base
  import opened RoutePlans

  type RequestId = nat

  /** An activation under way: its plan and device, and whether it has cancelled the others yet. */
  datatype Pending = Pending(id: Id, device: string, cancelled: bool)

  datatype RaceState = RaceState(base: RoutePlans.State, inFlight: map<RequestId, Pending>)

  datatype Event =
    | Begin(request: RequestId, id: Id, who: Requester)
    | CancelOthers(request: RequestId)
    | SetActive(request: RequestId)
    | Other(e: RoutePlans.Event)

  const INIT := RaceState(RoutePlans.INIT, map[])

  function Update(s: RaceState, plans: Plans, inFlight: map<RequestId, Pending>): RaceState {
    RaceState(s.base.(plans := plans), inFlight)
  }

  function Step(s: RaceState, e: Event): RaceState {
    var plans := s.base.plans;
    match e
    case Begin(r, id, who) =>
      if r in s.inFlight || Find(plans, id, who) != Done || Terminal(plans[id].status) then s
      else s.(inFlight := s.inFlight[r := Pending(id, plans[id].device, false)])
    case CancelOthers(r) =>
      if r !in s.inFlight || s.inFlight[r].cancelled then s
      else Update(s, CancelActive(plans, s.inFlight[r].device, s.base.now),
                  s.inFlight[r := s.inFlight[r].(cancelled := true)])
    case SetActive(r) =>
      if r !in s.inFlight || !s.inFlight[r].cancelled || s.inFlight[r].id !in plans then s
      else
        var id := s.inFlight[r].id;
        Update(s, plans[id := plans[id].(status := Active, activatedAt := Some(s.base.now), completedAt := None)],
               s.inFlight - {r})
    case Other(e) => if e.DoActivate? then s else s.(base := RoutePlans.Step(s.base, e))
  }

  function Run(es: seq<Event>): RaceState {
    if es == [] then INIT else Step(Run(es[..|es| - 1]), es[|es| - 1])
  }

  /** Between their two updates, activations for one device are activations of one plan. */
  ghost predicate NoOverlap(s: RaceState) {
    forall r, q ::
      (r in s.inFlight && q in s.inFlight && s.inFlight[r].cancelled && s.inFlight[q].cancelled
       && s.inFlight[r].device == s.inFlight[q].device)
      ==> s.inFlight[r].id == s.inFlight[q].id
  }

  ghost predicate NeverOverlaps(es: seq<Event>) {
    forall n :: 0 <= n <= |es| ==> NoOverlap(Run(es[..n]))
  }

  /** A pending activation knows its plan's device; once it has cancelled, only its own plan can be ACTIVE there. */
  ghost predicate PendingInv(s: RaceState, p: Pending) {
    && p.id in s.base.plans && s.base.plans[p.id].device == p.device
    && (p.cancelled ==>
          forall i :: i in s.base.plans && s.base.plans[i].device == p.device && s.base.plans[i].status == Active ==> i == p.id)
  }

  ghost predicate Inv(s: RaceState) {
    && OneActivePerDevice(s.base.plans)
    && (forall r :: r in s.inFlight ==> PendingInv(s, s.inFlight[r]))
  }

  lemma StepKeepsPending(s: RaceState, e: Event, r: RequestId)
    requires Inv(s) && NoOverlap(s) && r in Step(s, e).inFlight
    ensures PendingInv(Step(s, e), Step(s, e).inFlight[r])
  {
    if r in s.inFlight {
      assert PendingInv(s, s.inFlight[r]);
    }
    if e.SetActive? && e.request in s.inFlight {
      assert PendingInv(s, s.inFlight[e.request]);
    }
  }

  lemma SetActiveKeepsRule(s: RaceState, r: RequestId)
    requires Inv(s)
    ensures OneActivePerDevice(Step(s, SetActive(r)).base.plans)
  {
    if r in s.inFlight {
      assert PendingInv(s, s.inFlight[r]);
    }
  }

  /** Nothing but an activation's last update makes a plan ACTIVE. */
  lemma OthersActivateNothing(s: RaceState, e: Event, i: Id)
    requires !e.SetActive? && i in Step(s, e).base.plans && Step(s, e).base.plans[i].status == Active
    ensures i in s.base.plans && s.base.plans[i].status == Active
    ensures Step(s, e).base.plans[i].device == s.base.plans[i].device
  {
  }

  lemma StepKeepsInv(s: RaceState, e: Event)
    requires Inv(s) && NoOverlap(s)
    ensures Inv(Step(s, e))
  {
    var t := Step(s, e);
    forall r | r in t.inFlight ensures PendingInv(t, t.inFlight[r]) {
      StepKeepsPending(s, e, r);
    }
    if e.SetActive? {
      SetActiveKeepsRule(s, e.request);
    } else {
      forall i | i in t.base.plans && t.base.plans[i].status == Active
        ensures i in s.base.plans && s.base.plans[i].status == Active && t.base.plans[i].device == s.base.plans[i].device
      {
        OthersActivateNothing(s, e, i);
      }
    }
  }

  lemma {:induction false} RunKeepsInv(es: seq<Event>)
    requires NeverOverlaps(es)
    ensures Inv(Run(es))
  {
    if es == [] {
    } else {
      var init := es[..|es| - 1];
      forall n | 0 <= n <= |init| ensures NoOverlap(Run(init[..n])) {
        assert init[..n] == es[..n];
      }
      RunKeepsInv(init);
      assert init[..|init|] == init && NoOverlap(Run(init));
      StepKeepsInv(Run(init), es[|es| - 1]);
    }
  }

  /** In every interleaving whose activations never overlap, a device has at most one ACTIVE plan. */
  lemma OneActiveWithoutOverlap(es: seq<Event>)
    requires NeverOverlaps(es)
    ensures OneActivePerDevice(Run(es).base.plans)
  {
    RunKeepsInv(es);
  }

  /** And an overlap is always enough to break it: let the two activations finish. */
  lemma OverlapBreaksTheRule(s: RaceState, r: RequestId, q: RequestId)
    requires r in s.inFlight && q in s.inFlight
    requires s.inFlight[r].cancelled && s.inFlight[q].cancelled
    requires s.inFlight[r].id != s.inFlight[q].id && s.inFlight[r].device == s.inFlight[q].device
    requires PendingKnown(s, s.inFlight[r]) && PendingKnown(s, s.inFlight[q])
    ensures
      var t, i, j := Step(Step(s, SetActive(r)), SetActive(q)), s.inFlight[r].id, s.inFlight[q].id;
      && i in t.base.plans && t.base.plans[i].status == Active
      && j in t.base.plans && t.base.plans[j].status == Active
      && !OneActivePerDevice(t.base.plans)
  {
    var t := Step(Step(s, SetActive(r)), SetActive(q));
    var i, j := s.inFlight[r].id, s.inFlight[q].id;
    assert i in t.base.plans && j in t.base.plans;
    assert t.base.plans[i].status == Active && t.base.plans[j].status == Active;
    assert t.base.plans[i].device == t.base.plans[j].device;
  }

  ghost predicate PendingKnown(s: RaceState, p: Pending) {
    p.id in s.base.plans && s.base.plans[p.id].device == p.device
  }

  lemma StepKeepsKnown(s: RaceState, e: Event, r: RequestId)
    requires r in s.inFlight ==> PendingKnown(s, s.inFlight[r])
    requires r in Step(s, e).inFlight
    ensures PendingKnown(Step(s, e), Step(s, e).inFlight[r])
  {
  }

  lemma {:induction false} PendingIsKnown(es: seq<Event>, r: RequestId)
    requires r in Run(es).inFlight
    ensures PendingKnown(Run(es), Run(es).inFlight[r])
  {
    hide Step, PendingKnown;
    var init, last := es[..|es| - 1], es[|es| - 1];
    if r in Run(init).inFlight {
      PendingIsKnown(init, r);
    }
    StepKeepsKnown(Run(init), last, r);
  }

  /** In every reachable state, finishing two activations that overlap leaves two ACTIVE plans. */
  lemma OverlapInARunBreaksTheRule(es: seq<Event>, r: RequestId, q: RequestId)
    requires r in Run(es).inFlight && q in Run(es).inFlight
    requires Run(es).inFlight[r].cancelled && Run(es).inFlight[q].cancelled
    requires Run(es).inFlight[r].id != Run(es).inFlight[q].id && Run(es).inFlight[r].device == Run(es).inFlight[q].device
    ensures !OneActivePerDevice(Run(es + [SetActive(r)] + [SetActive(q)]).base.plans)
  {
    PendingIsKnown(es, r);
    PendingIsKnown(es, q);
    RunOneMore(es, SetActive(r));
    RunOneMore(es + [SetActive(r)], SetActive(q));
    OverlapBreaksTheRule(Run(es), r, q);
  }

  /** Two activations that both look before either updates have both cancelled, and activated nothing yet. */
  lemma BothHaveCancelled(s: RaceState, r: RequestId, q: RequestId, i: Id, j: Id, who: Requester, whom: Requester)
    requires r !in s.inFlight && q !in s.inFlight && r != q
    requires Find(s.base.plans, i, who) == Done && Find(s.base.plans, j, whom) == Done
    requires !Terminal(s.base.plans[i].status) && !Terminal(s.base.plans[j].status)
    ensures
      var begun := Step(Step(s, Begin(r, i, who)), Begin(q, j, whom));
      var t := Step(Step(begun, CancelOthers(r)), CancelOthers(q));
      && r in t.inFlight && t.inFlight[r] == Pending(i, s.base.plans[i].device, true) && PendingKnown(t, t.inFlight[r])
      && q in t.inFlight && t.inFlight[q] == Pending(j, s.base.plans[j].device, true) && PendingKnown(t, t.inFlight[q])
  {
    var begun := Step(Step(s, Begin(r, i, who)), Begin(q, j, whom));
    assert begun.base == s.base && begun.inFlight[r] == Pending(i, s.base.plans[i].device, false)
        && begun.inFlight[q] == Pending(j, s.base.plans[j].device, false);
  }

  /**
   * Overlaps do occur: from every state, two open plans of one device whose activations both look before
   * either updates end up ACTIVE together.
   */
  lemma OverlappingActivationsBothSucceed(s: RaceState, r: RequestId, q: RequestId, i: Id, j: Id, who: Requester, whom: Requester)
    requires r !in s.inFlight && q !in s.inFlight && r != q && i != j
    requires Find(s.base.plans, i, who) == Done && Find(s.base.plans, j, whom) == Done
    requires !Terminal(s.base.plans[i].status) && !Terminal(s.base.plans[j].status)
    requires s.base.plans[i].device == s.base.plans[j].device
    ensures
      var begun := Step(Step(s, Begin(r, i, who)), Begin(q, j, whom));
      var cancelled := Step(Step(begun, CancelOthers(r)), CancelOthers(q));
      var t := Step(Step(cancelled, SetActive(r)), SetActive(q));
      && !NoOverlap(cancelled)
      && i in t.base.plans && t.base.plans[i].status == Active
      && j in t.base.plans && t.base.plans[j].status == Active
      && !OneActivePerDevice(t.base.plans)
  {
    BothHaveCancelled(s, r, q, i, j, who, whom);
    hide Step;
    var begun := Step(Step(s, Begin(r, i, who)), Begin(q, j, whom));
    OverlapBreaksTheRule(Step(Step(begun, CancelOthers(r)), CancelOthers(q)), r, q);
  }

  lemma NeverOverlapsPrefix(es: seq<Event>, n: nat)
    requires NeverOverlaps(es) && n <= |es|
    ensures NeverOverlaps(es[..n])
  {
    forall m | 0 <= m <= n ensures NoOverlap(Run(es[..n][..m])) {
      assert es[..n][..m] == es[..m];
    }
  }

  lemma TwoFinishesKeepTheRule(s: RaceState, r: RequestId, q: RequestId)
    requires Inv(s) && NoOverlap(s)
    ensures OneActivePerDevice(Step(Step(s, SetActive(r)), SetActive(q)).base.plans)
  {
    StepKeepsInv(s, SetActive(r));
    SetActiveKeepsRule(Step(s, SetActive(r)), q);
  }

  /** The rule holds at every moment, also if any two of the activations under way were to finish next. */
  ghost predicate RuleIsSafe(es: seq<Event>) {
    forall n, r, q :: 0 <= n <= |es| ==> OneActivePerDevice(Run(es[..n] + [SetActive(r)] + [SetActive(q)]).base.plans)
  }

  /** The exact condition: the rule is safe throughout a run if and only if its activations never overlap. */
  lemma RuleIsSafeExactlyWithoutOverlap(es: seq<Event>)
    ensures RuleIsSafe(es) <==> NeverOverlaps(es)
  {
    if NeverOverlaps(es) {
      forall n, r, q | 0 <= n <= |es|
        ensures OneActivePerDevice(Run(es[..n] + [SetActive(r)] + [SetActive(q)]).base.plans)
      {
        NeverOverlapsPrefix(es, n);
        RunKeepsInv(es[..n]);
        RunOneMore(es[..n], SetActive(r));
        RunOneMore(es[..n] + [SetActive(r)], SetActive(q));
        TwoFinishesKeepTheRule(Run(es[..n]), r, q);
      }
    } else {
      var n :| 0 <= n <= |es| && !NoOverlap(Run(es[..n]));
      var s := Run(es[..n]);
      var r, q :| r in s.inFlight && q in s.inFlight && s.inFlight[r].cancelled && s.inFlight[q].cancelled
                  && s.inFlight[r].device == s.inFlight[q].device && s.inFlight[r].id != s.inFlight[q].id;
      OverlapInARunBreaksTheRule(es[..n], r, q);
    }
  }

  // ----- Do terminal plans stay terminal? -----

  /** The event is the last update of an activation. */
  predicate Finishes(s: RaceState, e: Event) {
    e.SetActive? && e.request in s.inFlight && s.inFlight[e.request].cancelled && s.inFlight[e.request].id in s.base.plans
  }

  /** The event completes or cancels the plan: a complete, a cancel, or an activation's update finding it ACTIVE. */
  predicate Hits(s: RaceState, e: Event, id: Id) {
    match e
    case Other(DoComplete(i, who)) => i == id && Find(s.base.plans, i, who) == Done
    case Other(DoCancel(i, who)) => i == id && Find(s.base.plans, i, who) == Done
    case CancelOthers(q) =>
      && q in s.inFlight && !s.inFlight[q].cancelled
      && id in s.base.plans && s.base.plans[id].status == Active && s.base.plans[id].device == s.inFlight[q].device
    case _ => false
  }

  /** Since activation r, still under way, found its plan open, something has hit that plan. */
  predicate HitSinceBegin(es: seq<Event>, r: RequestId) {
    es != []
    && var s := Run(es[..|es| - 1]);
       r in s.inFlight && (Hits(s, es[|es| - 1], s.inFlight[r].id) || HitSinceBegin(es[..|es| - 1], r))
  }

  /** The n-th event takes the plan back to an earlier stage. */
  predicate GoesBack(es: seq<Event>, n: nat, i: Id) {
    && n < |es| && i in Run(es[..n]).base.plans && i in Run(es[..n + 1]).base.plans
    && Stage(Run(es[..n + 1]).base.plans[i].status) < Stage(Run(es[..n]).base.plans[i].status)
  }

  ghost predicate StagesKept(es: seq<Event>) {
    forall n: nat, i :: !GoesBack(es, n, i)
  }

  lemma RunPrefix(es: seq<Event>, n: nat)
    requires n < |es|
    ensures Run(es[..n + 1]) == Step(Run(es[..n]), es[n])
  {
    assert es[..n + 1][..n] == es[..n];
  }

  /** Only the last update of an activation can take a plan back, and it does so whenever the plan is terminal. */
  lemma StepGoesBackExactlyWhen(s: RaceState, e: Event, i: Id)
    requires i in s.base.plans
    ensures i in Step(s, e).base.plans
    ensures Stage(Step(s, e).base.plans[i].status) < Stage(s.base.plans[i].status)
       <==> Finishes(s, e) && s.inFlight[e.request].id == i && Terminal(s.base.plans[i].status)
  {
  }

  lemma StepKeepsOpen(s: RaceState, e: Event, r: RequestId)
    requires r in Step(s, e).inFlight
    requires r in s.inFlight ==> PendingKnown(s, s.inFlight[r]) && !Hits(s, e, s.inFlight[r].id)
                                 && !Terminal(s.base.plans[s.inFlight[r].id].status)
    ensures
      var t := Step(s, e);
      t.inFlight[r].id in t.base.plans && !Terminal(t.base.plans[t.inFlight[r].id].status)
  {
  }

  lemma {:induction false} UnhitPlansAreOpen(es: seq<Event>, r: RequestId)
    requires r in Run(es).inFlight && !HitSinceBegin(es, r)
    ensures
      var s := Run(es);
      s.inFlight[r].id in s.base.plans && !Terminal(s.base.plans[s.inFlight[r].id].status)
  {
    hide Step, Hits;
    var init, last := es[..|es| - 1], es[|es| - 1];
    if r in Run(init).inFlight {
      UnhitPlansAreOpen(init, r);
      PendingIsKnown(init, r);
    }
    StepKeepsOpen(Run(init), last, r);
  }

  lemma HitMakesTerminal(s: RaceState, e: Event, r: RequestId)
    requires r in s.inFlight && PendingKnown(s, s.inFlight[r]) && r in Step(s, e).inFlight
    ensures Step(s, e).inFlight[r].id == s.inFlight[r].id
    ensures Hits(s, e, s.inFlight[r].id) ==> Terminal(Step(s, e).base.plans[s.inFlight[r].id].status)
  {
  }

  lemma {:induction false} HitPlansAreTerminal(es: seq<Event>, r: RequestId)
    requires r in Run(es).inFlight && HitSinceBegin(es, r) && StagesKept(es)
    ensures
      var s := Run(es);
      s.inFlight[r].id in s.base.plans && Terminal(s.base.plans[s.inFlight[r].id].status)
  {
    hide Step, Hits;
    var last := |es| - 1;
    var init := es[..last];
    var s := Run(init);
    PendingIsKnown(init, r);
    PendingIsKnown(es, r);
    HitMakesTerminal(s, es[last], r);
    if !Hits(s, es[last], s.inFlight[r].id) {
      StagesKeptBefore(es, last);
      HitPlansAreTerminal(init, r);
      assert es[..last + 1] == es && !GoesBack(es, last, s.inFlight[r].id);
    }
  }

  lemma StagesKeptBefore(es: seq<Event>, n: nat)
    requires StagesKept(es) && n <= |es|
    ensures StagesKept(es[..n])
  {
    forall m: nat, i ensures !GoesBack(es[..n], m, i) {
      if m < n {
        assert es[..n][..m] == es[..m] && es[..n][..m + 1] == es[..m + 1];
        assert !GoesBack(es, m, i);
      }
    }
  }

  lemma GoingBackMeansHit(es: seq<Event>, n: nat, i: Id)
    ensures GoesBack(es, n, i) ==> Finishes(Run(es[..n]), es[n]) && HitSinceBegin(es[..n], es[n].request)
  {
    hide Step, Hits, HitSinceBegin;
    if GoesBack(es, n, i) {
      RunPrefix(es, n);
      StepGoesBackExactlyWhen(Run(es[..n]), es[n], i);
      if !HitSinceBegin(es[..n], es[n].request) {
        UnhitPlansAreOpen(es[..n], es[n].request);
      }
    }
  }

  lemma FinishingAHitPlanGoesBack(es: seq<Event>, n: nat)
    requires n < |es| && Finishes(Run(es[..n]), es[n]) && StagesKept(es[..n])
    ensures HitSinceBegin(es[..n], es[n].request) ==> GoesBack(es, n, Run(es[..n]).inFlight[es[n].request].id)
  {
    hide Step, Hits, HitSinceBegin;
    if HitSinceBegin(es[..n], es[n].request) {
      HitPlansAreTerminal(es[..n], es[n].request);
      RunPrefix(es, n);
      StepGoesBackExactlyWhen(Run(es[..n]), es[n], Run(es[..n]).inFlight[es[n].request].id);
    }
  }

  /**
   * Exactly when no plan of a run ever goes back to an earlier stage, activations interleaved: no
   * activation finishes on a plan that was completed or cancelled after the activation began.
   */
  lemma StagesKeptExactlyWhenUnhit(es: seq<Event>)
    ensures StagesKept(es)
       <==> forall n: nat :: n < |es| && Finishes(Run(es[..n]), es[n]) ==> !HitSinceBegin(es[..n], es[n].request)
  {
    hide HitSinceBegin, Step;
    if StagesKept(es) {
      forall n: nat | n < |es| && Finishes(Run(es[..n]), es[n]) ensures !HitSinceBegin(es[..n], es[n].request) {
        StagesKeptBefore(es, n);
        FinishingAHitPlanGoesBack(es, n);
      }
    } else {
      var n: nat, i :| GoesBack(es, n, i);
      GoingBackMeansHit(es, n, i);
    }
  }

  /** Finishing an activation makes its plan ACTIVE in every reachable state, a terminal plan included. */
  lemma FinishingAlwaysRevives(es: seq<Event>, r: RequestId)
    requires r in Run(es).inFlight && Run(es).inFlight[r].cancelled
    ensures
      var s, t := Run(es), Run(es + [SetActive(r)]);
      var id := s.inFlight[r].id;
      && id in s.base.plans && id in t.base.plans && t.base.plans[id].status == Active
      && (Terminal(s.base.plans[id].status) <==> GoesBack(es + [SetActive(r)], |es|, id))
  {
    PendingIsKnown(es, r);
    RunOneMore(es, SetActive(r));
    assert (es + [SetActive(r)])[..|es|] == es && (es + [SetActive(r)])[..|es| + 1] == es + [SetActive(r)];
  }

  /** A plan completed between an activation's lookup and its updates comes back as ACTIVE. */
  lemma CompletedPlanComesBack(s: RaceState, r: RequestId, id: Id, who: Requester)
    requires r !in s.inFlight && Find(s.base.plans, id, who) == Done && !Terminal(s.base.plans[id].status)
    ensures
      var completed := Step(Step(s, Begin(r, id, who)), Other(DoComplete(id, who)));
      var finished := Step(Step(completed, CancelOthers(r)), SetActive(r));
      completed.base.plans[id].status == Completed && finished.base.plans[id].status == Active
  {
    var begun := Step(s, Begin(r, id, who));
    assert begun.base == s.base && begun.inFlight[r] == Pending(id, s.base.plans[id].device, false);
  }

  /** Activation r, still under way, began from an ACTIVE plan. */
  predicate BeganActive(es: seq<Event>, r: RequestId) {
    es != []
    && var s, t := Run(es[..|es| - 1]), Run(es);
       if r in s.inFlight then BeganActive(es[..|es| - 1], r)
       else r in t.inFlight && t.inFlight[r].id in t.base.plans && t.base.plans[t.inFlight[r].id].status == Active
  }

  lemma StepKeepsActive(s: RaceState, e: Event, r: RequestId)
    requires r in s.inFlight && r in Step(s, e).inFlight && PendingKnown(s, s.inFlight[r])
    requires s.base.plans[s.inFlight[r].id].status == Active && !s.inFlight[r].cancelled
    requires !Hits(s, e, s.inFlight[r].id)
    ensures
      var t, id := Step(s, e), s.inFlight[r].id;
      t.inFlight[r].id == id && !t.inFlight[r].cancelled && id in t.base.plans && t.base.plans[id].status == Active
  {
  }

  lemma StepBeginsUncancelled(s: RaceState, e: Event, r: RequestId)
    requires r !in s.inFlight && r in Step(s, e).inFlight
    ensures !Step(s, e).inFlight[r].cancelled
  {
  }

  /** Re-activating an ACTIVE plan hits that plan itself before it can finish. */
  lemma {:induction false} ReactivationHitsItsPlan(es: seq<Event>, r: RequestId)
    requires r in Run(es).inFlight && BeganActive(es, r)
    ensures
      var s := Run(es);
      HitSinceBegin(es, r)
      || (!s.inFlight[r].cancelled && s.inFlight[r].id in s.base.plans && s.base.plans[s.inFlight[r].id].status == Active)
  {
    hide Step, Hits;
    var init, last := es[..|es| - 1], es[|es| - 1];
    var s := Run(init);
    if r !in s.inFlight {
      StepBeginsUncancelled(s, last, r);
    } else if !HitSinceBegin(es, r) {
      ReactivationHitsItsPlan(init, r);
      PendingIsKnown(init, r);
      StepKeepsActive(s, last, r);
    }
  }

  lemma RunOneMore(es: seq<Event>, e: Event)
    ensures Run(es + [e]) == Step(Run(es), e)
  {
    assert (es + [e])[..|es|] == es;
  }

  /** Run without interruption, the three steps are RoutePlans.Activate. */
  lemma UninterruptedActivation(s: RaceState, r: RequestId, id: Id, who: Requester)
    requires r !in s.inFlight
    ensures
      var t := Step(Step(Step(s, Begin(r, id, who)), CancelOthers(r)), SetActive(r));
      t.base.plans == Activate(s.base.plans, id, who, s.base.now).0 && t.inFlight == s.inFlight
  {
    if Find(s.base.plans, id, who) == Done && !Terminal(s.base.plans[id].status) {
      assert s.inFlight[r := Pending(id, s.base.plans[id].device, false)][r := Pending(id, s.base.plans[id].device, true)] - {r}
          == s.inFlight;
    }
  }
}
