/** The offline rehearsal of a wrist sweep: every step needs fresh feedback, issues the planned
    point of that moment, and ends for good on the first fault or at the end of the plan. */
module Rehearsal {
  import opened Common
  import opened Quintic
  import opened Gluing
  import opened AutoSpec
  import opened Trajectory
  import opened Persistence

  const ACTIVE := 6

  /** Seven bounded arm joints, then the gripper. */
  datatype Plan = Plan(
    reference: Vec8, min: Vec8, max: Vec8, spec: SweepSpec, timeoutNs: nat, firstHold: real,
    tolerance: Vec8, persistenceNs: nat)
  {
    /** What the plan and the rehearsal demand when they are made. */
    predicate Valid() {
      && spec.Valid() && timeoutNs > 0 && firstHold >= 0.0 && persistenceNs > 0
      && (forall i :: 0 <= i < 8 ==> tolerance[i] > 0.0)
      && InBounds(reference) && InBounds(Displaced(-spec.amplitude)) && InBounds(Displaced(spec.amplitude))
    }

    predicate InBounds(q: Vec8) { forall i :: 0 <= i < 7 ==> min[i] <= q[i] <= max[i] }

    function Displaced(offset: real): Vec8 { reference[ACTIVE := reference[ACTIVE] + offset] }

    /** The planned position at a time after the start. */
    function At(relativeNs: nat): Vec8
      requires spec.transitionNs > 0 && spec.holdNs > 0
    {
      match WristAt(spec, relativeNs)
      case Some(point) => Displaced(point.offset)
      case None => reference
    }
  }

  /** One feedback vector with the time and number its source gave it. */
  datatype Sample = Sample(sequence: nat, sourceNs: nat, values: Vec8)

  datatype Phase = Idle | Going | ReleaseRequired | Closed | ReleaseFailed

  datatype Reason =
    | BadTime | TimeWentBack | FeedbackTimeout | TransportFault | WrongIdentity | OutOfBounds | StaleOrFuture
    | FeedbackWentBack | ReferenceMismatch | PersistentError(joint: nat) | FinalTrackingError | Completed | OperatorStop

  type Timers = t: seq<Option<nat>> | |t| == 8 witness [None, None, None, None, None, None, None, None]

  /** What is known of the last accepted sample. */
  datatype Seen = Seen(sequence: nat, sourceNs: nat)

  datatype State = State(
    phase: Phase, reason: Option<Reason>, startNs: nat, lastNow: Option<int>, seen: Option<Seen>, since: Timers)

  const INITIAL := State(Idle, None, 0, None, None, [None, None, None, None, None, None, None, None])

  function Released(s: State, reason: Reason): State { s.(phase := ReleaseRequired, reason := Some(reason)) }

  predicate Open(s: State) { s.phase.Idle? || s.phase.Going? }

  // ----- one step

  /** The clock after a reading of it, or why it is refused. */
  function Clock(p: Plan, s: State, now: int): (State, Option<Reason>) {
    if now < 0 then (s, Some(BadTime))
    else if s.lastNow.Some? && now <= s.lastNow.value then (s, Some(TimeWentBack))
    else
      var t := s.(lastNow := Some(now));
      (t, if s.seen.Some? && now - s.seen.value.sourceNs > p.timeoutNs then Some(FeedbackTimeout) else None)
  }

  predicate Newer(seen: Option<Seen>, x: Sample) {
    seen.Some? ==> x.sequence > seen.value.sequence && x.sourceNs > seen.value.sourceNs
  }

  predicate AtReference(p: Plan, q: Vec8) { forall i :: 0 <= i < 8 ==> Abs(q[i] - p.reference[i]) <= p.firstHold }

  /** Why a sample is refused before it is compared with the plan. */
  function Refusal(p: Plan, s: State, now: int, feedback: Option<Sample>, healthy: bool): Option<Reason> {
    if !healthy then Some(TransportFault)
    else if feedback == None then Some(WrongIdentity)
    else
      var x := feedback.value;
      if !p.InBounds(x.values) then Some(OutOfBounds)
      else if !(0 <= now - x.sourceNs <= p.timeoutNs) then Some(StaleOrFuture)
      else if !Newer(s.seen, x) then Some(FeedbackWentBack)
      else if s.phase.Idle? && !AtReference(p, x.values) then Some(ReferenceMismatch)
      else None
  }

  /** The moment of the plan a sample is compared with. */
  function Moment(p: Plan, startNs: nat, sourceNs: nat): nat {
    var after := if sourceNs < startNs then 0 else sourceNs - startNs;
    if after > p.spec.DurationNs() then p.spec.DurationNs() else after
  }

  predicate Off(p: Plan, startNs: nat, x: Sample, i: nat)
    requires p.Valid() && i < 8
  {
    Abs(x.values[i] - p.At(Moment(p, startNs, x.sourceNs))[i]) > p.tolerance[i]
  }

  /** The timers of features i..7, in order, up to the first that has run out. */
  function TrackFrom(p: Plan, startNs: nat, since: Timers, x: Sample, i: nat): (Timers, Option<nat>)
    requires p.Valid() && i <= 8
    decreases 8 - i
  {
    if i == 8 then (since, None)
    else
      var t := since[i := Tick(since[i], Reading(x.sourceNs, Off(p, startNs, x, i)))];
      if Expired(t[i], x.sourceNs, p.persistenceNs) then (t, Some(i)) else TrackFrom(p, startNs, t, x, i + 1)
  }

  function Track(p: Plan, s: State, now: nat, x: Sample): (State, Option<Vec8>)
    requires p.Valid() && s.startNs <= now
  {
    var (since, late) := TrackFrom(p, s.startNs, s.since, x, 0);
    var t := s.(since := since);
    if late.Some? then (Released(t, PersistentError(late.value)), None)
    else
      var u := t.(seen := Some(Seen(x.sequence, x.sourceNs)));
      if now - s.startNs < p.spec.DurationNs() then (u, Some(p.At(now - s.startNs)))
      else (Released(u, if Erring(since) then FinalTrackingError else Completed), None)
  }

  predicate Erring(since: Timers) { exists i :: 0 <= i < 8 && since[i].Some? }

  /** The clock of a rehearsal never runs behind its start. */
  predicate Consistent(s: State) { s.phase.Going? ==> s.lastNow.Some? && s.startNs <= s.lastNow.value }

  function Step(p: Plan, s: State, now: int, feedback: Option<Sample>, healthy: bool): (State, Option<Vec8>)
    requires p.Valid() && Consistent(s)
  {
    if !Open(s) then (s, None)
    else
      var (t, fault) := Clock(p, s, now);
      if fault.Some? then (Released(t, fault.value), None)
      else
        var refusal := Refusal(p, t, now, feedback, healthy);
        if refusal.Some? then (Released(t, refusal.value), None)
        else Track(p, if s.phase.Idle? then t.(phase := Going, startNs := now) else t, now, feedback.value)
  }

  function Poll(p: Plan, s: State, now: int): State {
    if !s.phase.Going? then s
    else
      var (t, fault) := Clock(p, s, now);
      if fault.Some? then Released(t, fault.value) else t
  }

  function Stop(s: State): State { if Open(s) then Released(s, OperatorStop) else s }

  /** None if no release is asked for. */
  function Acknowledge(s: State, disabled: bool, resources: bool): Option<State> {
    if !s.phase.ReleaseRequired? then None
    else Some(s.(phase := if disabled && resources then Closed else ReleaseFailed))
  }

  class Rehearsal {
    const plan: Plan
    var phase: Phase
    var reason: Option<Reason>
    var startNs: nat
    var lastNow: Option<int>
    var seen: Option<Seen>
    var since: Timers

    constructor (plan: Plan)
      requires plan.Valid()
      ensures this.plan == plan && View() == INITIAL
    {
      this.plan := plan;
      phase, reason, startNs, lastNow, seen, since := Idle, None, 0, None, None, INITIAL.since;
    }

    function View(): State
      reads this
    {
      State(phase, reason, startNs, lastNow, seen, since)
    }

    method Release(why: Reason)
      modifies this
      ensures View() == Released(old(View()), why)
    {
      phase, reason := ReleaseRequired, Some(why);
    }

    method ReadClock(now: int) returns (fault: Option<Reason>)
      modifies this
      ensures (View(), fault) == Clock(plan, old(View()), now)
    {
      if now < 0 { return Some(BadTime); }
      if lastNow.Some? && now <= lastNow.value { return Some(TimeWentBack); }
      lastNow := Some(now);
      if seen.Some? && now - seen.value.sourceNs > plan.timeoutNs { return Some(FeedbackTimeout); }
      return None;
    }

    /** Advance the timer of every feature; the first that has run out is returned. */
    method TrackErrors(x: Sample) returns (late: Option<nat>)
      requires plan.Valid()
      modifies this
      ensures View() == old(View()).(since := since)
      ensures (since, late) == TrackFrom(plan, startNs, old(since), x, 0)
    {
      hide Off, Plan.Valid;
      for i := 0 to 8
        invariant View() == old(View()).(since := since)
        invariant TrackFrom(plan, startNs, since, x, i) == TrackFrom(plan, startNs, old(since), x, 0)
      {
        if Off(plan, startNs, x, i) {
          if since[i] == None { since := since[i := Some(x.sourceNs)]; }
          assert since == since[i := since[i]];
          if x.sourceNs >= since[i].value + plan.persistenceNs { return Some(i); }
        } else {
          since := since[i := None];
        }
      }
      return None;
    }

    method Advance(now: int, feedback: Option<Sample>, healthy: bool) returns (point: Option<Vec8>)
      requires plan.Valid() && Consistent(View())
      modifies this
      ensures (View(), point) == Step(plan, old(View()), now, feedback, healthy)
      ensures Consistent(View())
    {
      hide Plan.Valid, TrackFrom, Plan.At, Refusal, Erring;
      if phase != Idle && phase != Going { return None; }
      var fault := ReadClock(now);
      if fault.Some? { Release(fault.value); return None; }
      var refusal := Refusal(plan, View(), now, feedback, healthy);
      if refusal.Some? { Release(refusal.value); return None; }
      RefusedWithout(plan, View(), now, feedback, healthy);
      var x := feedback.value;
      if phase == Idle { startNs, phase := now, Going; }
      var late := TrackErrors(x);
      if late.Some? { Release(PersistentError(late.value)); return None; }
      seen := Some(Seen(x.sequence, x.sourceNs));
      PlanIsTimed(plan);
      if now - startNs >= plan.spec.DurationNs() {
        Release(if Erring(since) then FinalTrackingError else Completed);
        return None;
      }
      return Some(plan.At(now - startNs));
    }

    method PollNow(now: int)
      modifies this
      ensures View() == Poll(plan, old(View()), now)
    {
      if phase == Going {
        var fault := ReadClock(now);
        if fault.Some? { Release(fault.value); }
      }
    }

    method StopNow()
      modifies this
      ensures View() == Stop(old(View()))
    {
      if phase == Idle || phase == Going { Release(OperatorStop); }
    }

    method AcknowledgeRelease(disabled: bool, resources: bool) returns (ok: bool)
      modifies this
      ensures ok <==> Acknowledge(old(View()), disabled, resources).Some?
      ensures View() == if ok then Acknowledge(old(View()), disabled, resources).value else old(View())
    {
      if phase != ReleaseRequired { return false; }
      phase := if disabled && resources then Closed else ReleaseFailed;
      return true;
    }
  }

  lemma RefusedWithout(p: Plan, s: State, now: int, feedback: Option<Sample>, healthy: bool)
    ensures Refusal(p, s, now, feedback, healthy) == None ==> feedback.Some?
  {}

  lemma PlanIsTimed(p: Plan)
    requires p.Valid()
    ensures p.spec.Valid() && p.spec.transitionNs > 0 && p.spec.holdNs > 0
  {}

  // ----- whole rehearsals

  datatype Event =
    | Feed(now: int, feedback: Option<Sample>, healthy: bool) | Look(now: int) | Halt
    | Confirm(disabled: bool, resources: bool)

  /** A point that was issued, and when. */
  datatype Issue = Issue(now: nat, point: Vec8)

  lemma StepIsConsistent(p: Plan, s: State, now: int, feedback: Option<Sample>, healthy: bool)
    requires p.Valid() && Consistent(s)
    ensures Consistent(Step(p, s, now, feedback, healthy).0)
    ensures Step(p, s, now, feedback, healthy).1.Some? ==> now >= 0
  {
    hide Plan.Valid, Refusal, TrackFrom, Erring, Plan.At;
  }

  function Next(p: Plan, s: State, e: Event): (r: (State, Option<Vec8>))
    requires p.Valid() && Consistent(s)
    ensures Consistent(r.0) && (r.1.Some? ==> e.Feed? && e.now >= 0)
  {
    match e
    case Feed(now, feedback, healthy) => StepIsConsistent(p, s, now, feedback, healthy); Step(p, s, now, feedback, healthy)
    case Look(now) => (Poll(p, s, now), None)
    case Halt => (Stop(s), None)
    case Confirm(disabled, resources) =>
      (match Acknowledge(s, disabled, resources) case Some(t) => t case None => s, None)
  }

  function Run(p: Plan, events: seq<Event>): (r: (State, seq<Issue>))
    requires p.Valid()
    ensures Consistent(r.0)
    decreases |events|
  {
    if events == [] then (INITIAL, [])
    else
      var n := |events| - 1;
      var (s, issues) := Run(p, events[..n]);
      var (t, point) := Next(p, s, events[n]);
      (t, if point.Some? then issues + [Issue(events[n].now, point.value)] else issues)
  }

  /** Each point is the planned one of its moment since the common start. */
  predicate OnPlan(p: Plan, start: nat, x: Issue)
    requires p.Valid()
  {
    start <= x.now < start + p.spec.DurationNs() && x.point == p.At(x.now - start)
  }

  predicate AllOnPlan(p: Plan, start: nat, issues: seq<Issue>)
    requires p.Valid()
  {
    && (forall k :: 0 <= k < |issues| ==> OnPlan(p, start, issues[k]))
    && forall j, k :: 0 <= j < k < |issues| ==> issues[j].now < issues[k].now
  }

  /** While it goes on, the clock is at or past every issue; before the start there is none. */
  predicate Behind(s: State, issues: seq<Issue>) {
    && (s.phase.Idle? ==> issues == [])
    && (s.phase.Going? ==> s.lastNow.Some? && forall k :: 0 <= k < |issues| ==> issues[k].now <= s.lastNow.value)
  }

  lemma IssueIsOnPlan(p: Plan, s: State, now: int, feedback: Option<Sample>, healthy: bool)
    requires p.Valid() && Consistent(s) && Step(p, s, now, feedback, healthy).1.Some?
    ensures var (t, point) := Step(p, s, now, feedback, healthy);
      && now >= 0 && OnPlan(p, t.startNs, Issue(now, point.value)) && t.phase.Going? && t.lastNow == Some(now)
      && Open(s) && (s.phase.Going? ==> t.startNs == s.startNs && s.lastNow.Some? && s.lastNow.value < now)
  {
    hide Refusal, TrackFrom, Erring, Plan.At, Plan.Valid;
  }

  lemma StartIsKept(p: Plan, s: State, e: Event)
    requires p.Valid() && Consistent(s)
    ensures var t := Next(p, s, e).0;
      && (!s.phase.Idle? ==> t.startNs == s.startNs && !t.phase.Idle?)
      && (t.phase.Going? && s.phase.Going? ==> s.lastNow.Some? && t.lastNow.Some? && s.lastNow.value <= t.lastNow.value)
      && (t.phase.Going? ==> Open(s))
  {
    hide Refusal, TrackFrom, Erring, Plan.At, Plan.Valid;
  }

  /** In every rehearsal the issued points are those of the plan, at increasing times. */
  lemma {:induction false} PointsFollowPlan(p: Plan, events: seq<Event>)
    requires p.Valid()
    ensures var (s, issues) := Run(p, events);
      AllOnPlan(p, s.startNs, issues) && Behind(s, issues)
    decreases |events|
  {
    if events != [] {
      var n := |events| - 1;
      PointsFollowPlan(p, events[..n]);
      var (s, issues) := Run(p, events[..n]);
      StartIsKept(p, s, events[n]);
      IssueKeeps(p, s, issues, events[n]);
    }
  }

  lemma IssueKeeps(p: Plan, s: State, issues: seq<Issue>, e: Event)
    requires p.Valid() && Consistent(s) && AllOnPlan(p, s.startNs, issues) && Behind(s, issues)
    ensures var (t, point) := Next(p, s, e);
      var after := if point.Some? then issues + [Issue(e.now, point.value)] else issues;
      AllOnPlan(p, t.startNs, after) && Behind(t, after)
  {
    hide OnPlan, Step, Poll, Stop, Acknowledge, Plan.Valid;
    StartIsKept(p, s, e);
    OpenStaysOpen(p, s, e);
    if Next(p, s, e).1.Some? { IssueIsOnPlan(p, s, e.now, e.feedback, e.healthy); }
  }

  lemma OpenStaysOpen(p: Plan, s: State, e: Event)
    requires p.Valid() && Consistent(s)
    ensures Next(p, s, e).0.phase.Idle? ==> s.phase.Idle? && Next(p, s, e).1 == None
    ensures s.phase.Idle? && Next(p, s, e).1 == None ==> !Next(p, s, e).0.phase.Going?
  {
    hide Refusal, TrackFrom, Erring, Plan.At, Plan.Valid;
  }

  // ----- what follows for the points

  lemma PlanMoves(p: Plan, early: nat, late: nat, i: nat)
    requires p.Valid() && early <= late <= p.spec.DurationNs() && i < 8
    ensures Within(p.At(late)[i] - p.At(early)[i], p.spec.maxSpeed, NanoSeconds(late) - NanoSeconds(early))
  {
    WristBudgets(p.spec, early, late);
    hide WristAt, Within, TangentWithin;
    var a, b := WristAt(p.spec, early).value, WristAt(p.spec, late).value;
    if i == ACTIVE {
      SameDifference(p.reference[i], a.offset, b.offset);
      assert p.At(late)[i] - p.At(early)[i] == b.offset - a.offset;
    } else {
      NanoOrder(late, early);
      AtRest(p.reference[i], p.spec.maxSpeed, NanoSeconds(late) - NanoSeconds(early));
    }
  }

  lemma AtRest(r: real, speed: real, elapsed: real)
    requires speed >= 0.0 && elapsed >= 0.0
    ensures Within(r - r, speed, elapsed)
  {
    Product(speed, elapsed);
  }

  /** Between any two issued points no joint moves faster than the plan's speed budget. */
  lemma PointsNeverJump(p: Plan, events: seq<Event>, j: nat, k: nat, i: nat)
    requires p.Valid() && j <= k < |Run(p, events).1| && i < 8
    ensures var x, y := Run(p, events).1[j], Run(p, events).1[k];
      x.now <= y.now && Within(y.point[i] - x.point[i], p.spec.maxSpeed, NanoSeconds(y.now) - NanoSeconds(x.now))
  {
    PointsFollowPlan(p, events);
    hide Run, Plan.At, Plan.Valid, Behind, WristAt, Within;
    var start := Run(p, events).0.startNs;
    var x, y := Run(p, events).1[j], Run(p, events).1[k];
    assert OnPlan(p, start, x) && OnPlan(p, start, y);
    PlanMoves(p, x.now - start, y.now - start, i);
    NanoOrder(start, y.now - start);
    NanoOrder(start, x.now - start);
  }

  /** Every issued point is within the bounds of every arm joint. */
  lemma PointsStayInBounds(p: Plan, events: seq<Event>, k: nat)
    requires p.Valid() && k < |Run(p, events).1|
    ensures p.InBounds(Run(p, events).1[k].point)
  {
    hide Run, Behind, OnPlan, AllOnPlan;
    PointsFollowPlan(p, events);
    var start := Run(p, events).0.startNs;
    IssueOnPlan(p, start, Run(p, events).1, k);
    PlanInBounds(p, Run(p, events).1[k].now - start);
  }

  lemma IssueOnPlan(p: Plan, start: nat, issues: seq<Issue>, k: nat)
    requires p.Valid() && AllOnPlan(p, start, issues) && k < |issues|
    ensures start <= issues[k].now < start + p.spec.DurationNs() && issues[k].point == p.At(issues[k].now - start)
  {}

  lemma PlanInBounds(p: Plan, relativeNs: nat)
    requires p.Valid() && relativeNs <= p.spec.DurationNs()
    ensures p.InBounds(p.At(relativeNs))
  {
    WristBudgets(p.spec, relativeNs, relativeNs);
    hide WristAt, Within, TangentWithin;
    var offset, a := WristAt(p.spec, relativeNs).value.offset, p.spec.amplitude;
    assert -a <= offset <= a;
    assert p.min[ACTIVE] <= p.Displaced(-a)[ACTIVE] && p.Displaced(a)[ACTIVE] <= p.max[ACTIVE];
  }

  /** Once released, a rehearsal never issues another point, and only an acknowledgement moves it. */
  lemma {:induction false} ReleaseIsFinal(p: Plan, events: seq<Event>, more: seq<Event>)
    requires p.Valid() && !Open(Run(p, events).0)
    ensures !Open(Run(p, events + more).0) && Run(p, events + more).1 == Run(p, events).1
    ensures Run(p, events + more).0.reason == Run(p, events).0.reason
    decreases |more|
  {
    if more == [] {
      assert events + more == events;
    } else {
      var n := |more| - 1;
      ReleaseIsFinal(p, events, more[..n]);
      assert (events + more)[..|events + more| - 1] == events + more[..n];
      hide Refusal, TrackFrom, Erring, Plan.At, Plan.Valid, Clock;
    }
  }

  // ----- tracking, exactly

  /** A step of a rehearsal whose transport is healthy. */
  datatype Fed = Fed(now: nat, x: Sample)

  /** What is known after a run of accepted samples, except for the timers and the phase. */
  function SeenAfter(trace: seq<Fed>): Option<Seen> {
    if trace == [] then None else Some(Seen(trace[|trace| - 1].x.sequence, trace[|trace| - 1].x.sourceNs))
  }

  /** The sample passes every check that does not depend on a timer. */
  predicate Fine(p: Plan, before: seq<Fed>, f: Fed) {
    && (before != [] ==> before[|before| - 1].now < f.now && f.now - before[|before| - 1].x.sourceNs <= p.timeoutNs)
    && p.InBounds(f.x.values) && 0 <= f.now - f.x.sourceNs <= p.timeoutNs && Newer(SeenAfter(before), f.x)
    && (before == [] ==> AtReference(p, f.x.values))
  }

  /** Every sample is fine, and none but the last comes at or after the end of the plan. */
  predicate Instantaneous(p: Plan, trace: seq<Fed>)
    decreases |trace|
  {
    trace != [] ==>
      var n := |trace| - 1;
      && Instantaneous(p, trace[..n]) && Fine(p, trace[..n], trace[n])
      && (n > 0 ==> trace[n - 1].now - trace[0].now < p.spec.DurationNs())
  }

  function Errors(p: Plan, trace: seq<Fed>, i: nat): (r: seq<Reading>)
    requires p.Valid() && i < 8
    ensures |r| == |trace|
  {
    seq(|trace|, k requires 0 <= k < |trace| => Reading(trace[k].x.sourceNs, Off(p, trace[0].now, trace[k].x, i)))
  }

  /** At sample k feature i has been off the plan without interruption for the persistence time. */
  ghost predicate Astray(p: Plan, trace: seq<Fed>, k: nat, i: nat)
    requires p.Valid() && i < 8
  {
    Persisted(Errors(p, trace, i), k, p.persistenceNs)
  }

  ghost predicate NeverAstray(p: Plan, trace: seq<Fed>)
    requires p.Valid()
  {
    forall k, i :: 0 <= k < |trace| && 0 <= i < 8 ==> !Astray(p, trace, k, i)
  }

  /** Fed one after the other from the start. */
  function Rehearsed(p: Plan, trace: seq<Fed>): (s: State)
    requires p.Valid()
    ensures Consistent(s)
    decreases |trace|
  {
    if trace == [] then INITIAL
    else
      var n := |trace| - 1;
      var s := Rehearsed(p, trace[..n]);
      StepIsConsistent(p, s, trace[n].now, Some(trace[n].x), true);
      Step(p, s, trace[n].now, Some(trace[n].x), true).0
  }

  /** The rehearsal goes on and its timers are those of the error traces. */
  ghost predicate InStep(p: Plan, s: State, trace: seq<Fed>)
    requires p.Valid()
  {
    && s.seen == SeenAfter(trace)
    && (forall i :: 0 <= i < 8 ==> s.since[i] == Timer(Errors(p, trace, i)))
    && if trace == [] then s == INITIAL
       else s.phase == Going && s.startNs == trace[0].now && s.lastNow == Some(trace[|trace| - 1].now)
  }

  lemma SourcesIncrease(p: Plan, trace: seq<Fed>)
    requires Instantaneous(p, trace)
    ensures forall j, k :: 0 <= j < k < |trace| ==> trace[j].x.sourceNs < trace[k].x.sourceNs
    decreases |trace|
  {
    if trace != [] {
      var n := |trace| - 1;
      SourcesIncrease(p, trace[..n]);
      if n > 0 { assert Newer(SeenAfter(trace[..n]), trace[n].x); }
    }
  }

  /** The verdict of the tracking loop on features i..7: the first that is late, if any is. */
  predicate Late(p: Plan, startNs: nat, since: Timers, x: Sample, i: nat)
    requires p.Valid() && i < 8
  {
    Expired(Tick(since[i], Reading(x.sourceNs, Off(p, startNs, x, i))), x.sourceNs, p.persistenceNs)
  }

  lemma {:induction false} TrackVerdict(p: Plan, startNs: nat, since: Timers, x: Sample, i: nat)
    requires p.Valid() && i <= 8
    ensures var (t, late) := TrackFrom(p, startNs, since, x, i);
      && (late == None <==> forall j :: i <= j < 8 ==> !Late(p, startNs, since, x, j))
      && (late.Some? ==> i <= late.value < 8 && Late(p, startNs, since, x, late.value)
                         && forall j :: i <= j < late.value ==> !Late(p, startNs, since, x, j))
      && (late == None ==> forall j :: 0 <= j < 8 ==>
            t[j] == if j < i then since[j] else Tick(since[j], Reading(x.sourceNs, Off(p, startNs, x, j))))
    decreases 8 - i
  {
    hide Off, Plan.Valid;
    if i < 8 {
      var t := since[i := Tick(since[i], Reading(x.sourceNs, Off(p, startNs, x, i)))];
      assert Late(p, startNs, since, x, i) == Expired(t[i], x.sourceNs, p.persistenceNs);
      if !Late(p, startNs, since, x, i) {
        TrackVerdict(p, startNs, t, x, i + 1);
        assert forall j :: i < j < 8 ==> Late(p, startNs, t, x, j) == Late(p, startNs, since, x, j);
      }
    }
  }

  lemma LateIffAstray(p: Plan, s: State, trace: seq<Fed>, i: nat)
    requires p.Valid() && i < 8 && trace != [] && Instantaneous(p, trace) && InStep(p, s, trace[..|trace| - 1])
    ensures var n, start := |trace| - 1, trace[0].now;
      && (Late(p, start, s.since, trace[n].x, i) <==> Astray(p, trace, n, i))
      && Tick(s.since[i], Reading(trace[n].x.sourceNs, Off(p, start, trace[n].x, i))) == Timer(Errors(p, trace, i))
  {
    SourcesIncrease(p, trace);
    hide Off, Plan.Valid, Instantaneous;
    var n, errors := |trace| - 1, Errors(p, trace, i);
    assert errors[..n] == Errors(p, trace[..n], i) && errors[..n + 1] == errors;
    ExpiredIffPersisted(errors, n, p.persistenceNs);
  }

  lemma NeverAstrayGrows(p: Plan, trace: seq<Fed>)
    requires p.Valid() && trace != []
    ensures var n := |trace| - 1;
      NeverAstray(p, trace) <==> NeverAstray(p, trace[..n]) && forall i :: 0 <= i < 8 ==> !Astray(p, trace, n, i)
  {
    hide Off, Plan.Valid;
    var n := |trace| - 1;
    forall k, i | 0 <= k < n && 0 <= i < 8 ensures Astray(p, trace, k, i) <==> Astray(p, trace[..n], k, i) {
      PersistedPrefix(Errors(p, trace, i), Errors(p, trace[..n], i), k, p.persistenceNs);
    }
  }

  /** A fine sample gets as far as the tracking. */
  lemma FineIsTracked(p: Plan, s: State, trace: seq<Fed>)
    requires p.Valid() && Consistent(s) && trace != [] && Instantaneous(p, trace) && InStep(p, s, trace[..|trace| - 1])
    ensures var n := |trace| - 1;
      var t := s.(phase := Going, startNs := trace[0].now, lastNow := Some(trace[n].now));
      && t.startNs <= trace[n].now
      && Step(p, s, trace[n].now, Some(trace[n].x), true) == Track(p, t, trace[n].now, trace[n].x)
  {
    hide Plan.InBounds, AtReference, Track, Errors, Plan.Valid;
    var n := |trace| - 1;
    assert Fine(p, trace[..n], trace[n]);
    assert n > 0 ==> trace[..n][0] == trace[0];
  }

  predicate Ended(p: Plan, trace: seq<Fed>) {
    trace != [] && trace[|trace| - 1].now - trace[0].now >= p.spec.DurationNs()
  }

  /** Some feature is outside its tolerance at the last sample. */
  predicate OffAtEnd(p: Plan, trace: seq<Fed>)
    requires p.Valid() && trace != []
  {
    SomeOff(p, trace[0].now, trace[|trace| - 1].x)
  }

  predicate SomeOff(p: Plan, startNs: nat, x: Sample)
    requires p.Valid()
  {
    exists i :: 0 <= i < 8 && Off(p, startNs, x, i)
  }

  /** How a run of fine samples stands: going on, ended by the plan, or ended by a feature that was
      off the plan for too long. */
  ghost predicate Stands(p: Plan, s: State, trace: seq<Fed>)
    requires p.Valid()
  {
    if !NeverAstray(p, trace) then s.phase.ReleaseRequired? && s.reason.Some? && s.reason.value.PersistentError?
    else if !Ended(p, trace) then InStep(p, s, trace)
    else s.phase.ReleaseRequired? && s.reason == Some(if OffAtEnd(p, trace) then FinalTrackingError else Completed)
  }

  lemma LastStands(p: Plan, s: State, trace: seq<Fed>)
    requires p.Valid() && Consistent(s) && trace != [] && Instantaneous(p, trace) && InStep(p, s, trace[..|trace| - 1])
    requires NeverAstray(p, trace[..|trace| - 1])
    ensures var f := trace[|trace| - 1];
      Stands(p, Step(p, s, f.now, Some(f.x), true).0, trace)
  {
    hide Off, Plan.Valid, Instantaneous, Plan.At, Errors, Timer, Astray, NeverAstray, Step, TrackFrom, Late;
    var n, f := |trace| - 1, trace[|trace| - 1];
    FineIsTracked(p, s, trace);
    NeverAstrayGrows(p, trace);
    var t := s.(phase := Going, startNs := trace[0].now, lastNow := Some(f.now));
    TrackVerdict(p, t.startNs, t.since, f.x, 0);
    forall i | 0 <= i < 8
      ensures Late(p, t.startNs, t.since, f.x, i) <==> Astray(p, trace, n, i)
      ensures Tick(t.since[i], Reading(f.x.sourceNs, Off(p, t.startNs, f.x, i))) == Timer(Errors(p, trace, i))
    {
      LateIffAstray(p, s, trace, i);
    }
    PlanIsTimed(p);
  }

  /** A rehearsal fed with samples that pass every instantaneous check goes on exactly as long as the
      plan lasts and no feature has an unbroken block of tracking errors that spans the persistence
      time. At the end of the plan it completes exactly when every feature is within tolerance. */
  lemma {:induction false} TrackingIsExact(p: Plan, trace: seq<Fed>)
    requires p.Valid() && Instantaneous(p, trace)
    ensures Stands(p, Rehearsed(p, trace), trace)
    decreases |trace|
  {
    if trace == [] {
      EmptyStands(p);
    } else {
      var n := |trace| - 1;
      NotEndedBefore(p, trace);
      TrackingIsExact(p, trace[..n]);
      NeverAstrayGrows(p, trace);
      hide NeverAstray, Instantaneous, Step, InStep, OffAtEnd, Ended, Plan.Valid;
      if NeverAstray(p, trace[..n]) {
        LastStands(p, Rehearsed(p, trace[..n]), trace);
      }
    }
  }

  lemma EmptyStands(p: Plan)
    requires p.Valid()
    ensures Stands(p, Rehearsed(p, []), [])
  {
    hide Off, Plan.Valid;
  }

  lemma NotEndedBefore(p: Plan, trace: seq<Fed>)
    requires trace != [] && Instantaneous(p, trace)
    ensures Instantaneous(p, trace[..|trace| - 1]) && !Ended(p, trace[..|trace| - 1])
  {}

  // ----- one step, in plain terms

  /** The plan moves joint 7 alone: the others, and the gripper, stay at the reference. */
  lemma PlanMovesOneJoint(p: Plan, relativeNs: nat, i: nat)
    requires p.spec.transitionNs > 0 && p.spec.holdNs > 0 && i < 8
    ensures p.At(relativeNs)[i] == p.reference[i] +
      (if i == 6 && WristAt(p.spec, relativeNs).Some? then WristAt(p.spec, relativeNs).value.offset else 0.0)
  {
    hide WristAt;
  }

  /** The clock goes on, and what was seen last is not too old. */
  predicate ClockFits(p: Plan, s: State, now: int) {
    now >= 0 && (s.lastNow.Some? ==> now > s.lastNow.value) && (s.seen.Some? ==> now - s.seen.value.sourceNs <= p.timeoutNs)
  }

  /** Every arm joint lies within its bounds. */
  predicate Bounded(p: Plan, x: Sample) { forall i :: 0 <= i < 7 ==> p.min[i] <= x.values[i] <= p.max[i] }

  /** The sample is from the past and not too old, and newer than what was seen last in number and time. */
  predicate Fresh(p: Plan, s: State, now: int, x: Sample) {
    && x.sourceNs <= now <= x.sourceNs + p.timeoutNs
    && (s.seen.Some? ==> x.sequence > s.seen.value.sequence && x.sourceNs > s.seen.value.sourceNs)
  }

  /** Every joint and the gripper is where the plan begins. */
  predicate InPlace(p: Plan, x: Sample) {
    forall i :: 0 <= i < 8 ==> p.reference[i] - p.firstHold <= x.values[i] <= p.reference[i] + p.firstHold
  }

  predicate Usable(p: Plan, s: State, now: int, feedback: Option<Sample>, healthy: bool) {
    && ClockFits(p, s, now) && healthy && feedback.Some? && Bounded(p, feedback.value)
    && Fresh(p, s, now, feedback.value) && (s.phase.Idle? ==> InPlace(p, feedback.value))
  }

  /** Why an unusable step releases: the first of these that applies. */
  function FirstReason(p: Plan, s: State, now: int, feedback: Option<Sample>, healthy: bool): Reason {
    if now < 0 then BadTime
    else if s.lastNow.Some? && now <= s.lastNow.value then TimeWentBack
    else if !ClockFits(p, s, now) then FeedbackTimeout
    else if !healthy then TransportFault
    else if feedback == None then WrongIdentity
    else if !Bounded(p, feedback.value) then OutOfBounds
    else if feedback.value.sourceNs > now || now > feedback.value.sourceNs + p.timeoutNs then StaleOrFuture
    else if !Fresh(p, s, now, feedback.value) then FeedbackWentBack
    else ReferenceMismatch
  }

  /** Released by tracking, or at the end of the plan. */
  predicate EndedByPlan(r: Option<Reason>) {
    r.Some? && (r.value.PersistentError? || r.value in [FinalTrackingError, Completed])
  }

  /** An open rehearsal is released by a step for the first reason that makes it unusable; a usable step is
      only ever ended by tracking or by the end of the plan, and starts the plan if it is the first. */
  lemma StepExactly(p: Plan, s: State, now: int, feedback: Option<Sample>, healthy: bool)
    requires p.Valid() && Consistent(s) && Open(s)
    ensures var (t, point) := Step(p, s, now, feedback, healthy);
      if !Usable(p, s, now, feedback, healthy) then
        point == None && t.phase.ReleaseRequired? && t.reason == Some(FirstReason(p, s, now, feedback, healthy))
      else
        && t.lastNow == Some(now) && t.startNs == (if s.phase.Idle? then now else s.startNs)
        && (t.phase.Going? <==> point.Some?) && (t.phase.Going? ==> t.seen == Some(Seen(feedback.value.sequence, feedback.value.sourceNs)))
        && (!t.phase.Going? ==> t.phase.ReleaseRequired? && EndedByPlan(t.reason))
  {
    hide TrackFrom, Erring, Plan.At, Plan.Valid, Bounded, InPlace;
    if feedback.Some? {
      assert Bounded(p, feedback.value) <==> p.InBounds(feedback.value.values) by { BoundedExactly(p, feedback.value); }
      InPlaceExactly(p, feedback.value);
    }
  }

  lemma BoundedExactly(p: Plan, x: Sample)
    ensures Bounded(p, x) <==> p.InBounds(x.values)
  {}

  lemma InPlaceExactly(p: Plan, x: Sample)
    ensures InPlace(p, x) <==> AtReference(p, x.values)
  {}

  /** A feature is off the plan if it is further than its tolerance from the planned position of its own
      time, which counts from the start and no further than the end. */
  lemma OffExactly(p: Plan, startNs: nat, x: Sample, i: nat)
    requires p.Valid() && i < 8
    ensures var end := p.spec.DurationNs();
      var moment: nat := if x.sourceNs <= startNs then 0 else if x.sourceNs >= startNs + end then end else x.sourceNs - startNs;
      var planned := p.At(moment)[i];
      Off(p, startNs, x, i) <==> x.values[i] > planned + p.tolerance[i] || x.values[i] < planned - p.tolerance[i]
  {
    hide Plan.At, Plan.Valid;
  }

  /** A poll of a running rehearsal releases it exactly if the clock does not fit; a stop releases an open
      one; a release is acknowledged once, and closes only if disabled and released. */
  lemma OthersExactly(p: Plan, s: State, now: int, disabled: bool, resources: bool)
    ensures Poll(p, s, now).phase == (if s.phase.Going? && !ClockFits(p, s, now) then ReleaseRequired else s.phase)
    ensures Stop(s).phase == (if s.phase.Idle? || s.phase.Going? then ReleaseRequired else s.phase)
    ensures (s.phase.Idle? || s.phase.Going?) ==> Stop(s).reason == Some(OperatorStop)
    ensures Acknowledge(s, disabled, resources) ==
      if s.phase.ReleaseRequired? then Some(s.(phase := if disabled && resources then Closed else ReleaseFailed)) else None
  {}
}
