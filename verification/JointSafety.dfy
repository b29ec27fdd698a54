/** The leader/follower joint safety monitor: bounds on both arms and a following-error
    timer per joint, in stop or warn mode. */
module JointSafety {
  import opened Common
  import opened Persistence

  type Vec7 = v: seq<real> | |v| == 7 witness [0.0, 0.0, 0.0, 0.0, 0.0, 0.0, 0.0]

  datatype Limits = Limits(min: Vec7, max: Vec7, following: Vec7, timeoutNs: nat, stop: bool) {
    predicate Valid() {
      timeoutNs > 0 && forall i :: 0 <= i < 7 ==> min[i] < max[i] && following[i] > 0.0
    }
  }

  type Timers = t: seq<Option<nat>> | |t| == 7 witness [None, None, None, None, None, None, None]
  type Flags = f: seq<bool> | |f| == 7 witness [false, false, false, false, false, false, false]

  const NO_TIMERS: Timers := [None, None, None, None, None, None, None]
  const NO_FLAGS: Flags := [false, false, false, false, false, false, false]

  datatype State = State(started: Timers, warned: Flags, last: Option<nat>)

  const INITIAL := State(NO_TIMERS, NO_FLAGS, None)

  datatype Cause = Clock | LeaderBounds(joint: nat) | FollowerBounds(joint: nat) | Following(joint: nat)
  datatype Event = Event(fatal: bool, cause: Cause)

  /** One synchronous pair of joint vectors, in degrees. */
  datatype Sample = Sample(now: nat, leader: Vec7, follower: Vec7)

  predicate InBounds(l: Limits, q: Vec7, i: nat)
    requires i < 7
  {
    l.min[i] <= q[i] <= l.max[i]
  }

  predicate Follows(l: Limits, x: Sample, i: nat)
    requires i < 7
  {
    Abs(x.leader[i] - x.follower[i]) <= l.following[i]
  }

  /** Joints i..6 in order; the first event ends the pass and leaves later joints alone. */
  function ObserveFrom(l: Limits, s: State, x: Sample, i: nat): (State, Option<Event>)
    requires i <= 7
    decreases 7 - i
  {
    if i == 7 then (s, None)
    else if !InBounds(l, x.leader, i) then (s, Some(Event(true, LeaderBounds(i))))
    else if !InBounds(l, x.follower, i) then (s, Some(Event(true, FollowerBounds(i))))
    else if Follows(l, x, i) then
      ObserveFrom(l, s.(started := s.started[i := None], warned := s.warned[i := false]), x, i + 1)
    else if s.started[i] == None then ObserveFrom(l, s.(started := s.started[i := Some(x.now)]), x, i + 1)
    else if !Expired(s.started[i], x.now, l.timeoutNs) then ObserveFrom(l, s, x, i + 1)
    else if l.stop then (s, Some(Event(true, Following(i))))
    else if !s.warned[i] then (s.(warned := s.warned[i := true]), Some(Event(false, Following(i))))
    else ObserveFrom(l, s, x, i + 1)
  }

  function Observed(l: Limits, s: State, x: Sample): (State, Option<Event>) {
    if s.last.Some? && x.now <= s.last.value then (s, Some(Event(true, Clock)))
    else ObserveFrom(l, s.(last := Some(x.now)), x, 0)
  }

  class Monitor {
    const limits: Limits
    var started: Timers
    var warned: Flags
    var last: Option<nat>

    constructor (limits: Limits)
      requires limits.Valid()
      ensures this.limits == limits && View() == INITIAL
    {
      this.limits := limits;
      started, warned, last := NO_TIMERS, NO_FLAGS, None;
    }

    function View(): State
      reads this
    {
      State(started, warned, last)
    }

    method Reset()
      modifies this
      ensures View() == INITIAL
    {
      started, warned, last := NO_TIMERS, NO_FLAGS, None;
    }

    method Observe(x: Sample) returns (event: Option<Event>)
      requires limits.Valid()
      modifies this
      ensures (View(), event) == Observed(limits, old(View()), x)
    {
      if last.Some? && x.now <= last.value { return Some(Event(true, Clock)); }
      last := Some(x.now);
      ghost var goal := ObserveFrom(limits, View(), x, 0);
      for i := 0 to 7
        invariant ObserveFrom(limits, View(), x, i) == goal
      {
        if x.leader[i] < limits.min[i] || x.leader[i] > limits.max[i] { return Some(Event(true, LeaderBounds(i))); }
        if x.follower[i] < limits.min[i] || x.follower[i] > limits.max[i] { return Some(Event(true, FollowerBounds(i))); }
        if Abs(x.leader[i] - x.follower[i]) <= limits.following[i] {
          started, warned := started[i := None], warned[i := false];
          continue;
        }
        if started[i] == None {
          started := started[i := Some(x.now)];
          continue;
        }
        if x.now >= started[i].value + limits.timeoutNs {
          if limits.stop { return Some(Event(true, Following(i))); }
          if !warned[i] {
            warned := warned[i := true];
            return Some(Event(false, Following(i)));
          }
        }
      }
      return None;
    }
  }

  // ----- stop mode on traces

  /** The monitor after a run, and the first event of the run if there was one. */
  function Run(l: Limits, trace: seq<Sample>): (State, Option<Event>) {
    if trace == [] then (INITIAL, None)
    else
      var (s, event) := Run(l, trace[..|trace| - 1]);
      if event.Some? then (s, event) else Observed(l, s, trace[|trace| - 1])
  }

  ghost predicate Instantaneous(l: Limits, trace: seq<Sample>) {
    && (forall i, j :: 0 <= i < j < |trace| ==> trace[i].now < trace[j].now)
    && forall k, i :: 0 <= k < |trace| && 0 <= i < 7 ==> InBounds(l, trace[k].leader, i) && InBounds(l, trace[k].follower, i)
  }

  function ErrorTrace(l: Limits, trace: seq<Sample>, i: nat): (r: seq<Reading>)
    requires i < 7
    ensures |r| == |trace|
  {
    seq(|trace|, k requires 0 <= k < |trace| => Reading(trace[k].now, !Follows(l, trace[k], i)))
  }

  /** At sample k joint i has not followed for at least the timeout. */
  ghost predicate Lost(l: Limits, trace: seq<Sample>, k: nat, i: nat)
    requires i < 7
  {
    Persisted(ErrorTrace(l, trace, i), k, l.timeoutNs)
  }

  /** Joint j's timer, this observation included, has run out. */
  predicate OverdueAt(l: Limits, s: State, x: Sample, j: nat)
    requires j < 7
  {
    Expired(Tick(s.started[j], Reading(x.now, !Follows(l, x, j))), x.now, l.timeoutNs)
  }

  /** The verdict on joints i..6: silence if none is overdue, else the first that is. */
  ghost predicate Verdict(l: Limits, s: State, x: Sample, i: nat, event: Option<Event>) {
    match event
    case None => forall j :: i <= j < 7 ==> !OverdueAt(l, s, x, j)
    case Some(e) => e.fatal && e.cause.Following? && i <= e.cause.joint < 7 && OverdueAt(l, s, x, e.cause.joint)
                    && forall k :: i <= k < e.cause.joint ==> !OverdueAt(l, s, x, k)
  }

  /** Every timer of joints i..6 has advanced by one observation, the others not at all. */
  ghost predicate Advanced(l: Limits, s: State, x: Sample, i: nat, t: State) {
    && t.last == s.last
    && (forall j :: i <= j < 7 ==> t.started[j] == Tick(s.started[j], Reading(x.now, !Follows(l, x, j))))
    && (forall j :: 0 <= j < i && j < 7 ==> t.started[j] == s.started[j])
  }

  /** One in-bounds sample in stop mode. */
  lemma {:induction false} StopModePass(l: Limits, s: State, x: Sample, i: nat)
    requires l.stop && l.Valid() && i <= 7
    requires forall j :: i <= j < 7 ==> InBounds(l, x.leader, j) && InBounds(l, x.follower, j)
    ensures Verdict(l, s, x, i, ObserveFrom(l, s, x, i).1)
    ensures ObserveFrom(l, s, x, i).1 == None ==> Advanced(l, s, x, i, ObserveFrom(l, s, x, i).0)
    decreases 7 - i
  {
    hide Follows;
    if i < 7 {
      var t := if Follows(l, x, i) then s.(started := s.started[i := None], warned := s.warned[i := false])
               else if s.started[i] == None then s.(started := s.started[i := Some(x.now)]) else s;
      if !OverdueAt(l, s, x, i) {
        StopModePass(l, t, x, i + 1);
        assert forall j :: i < j < 7 ==> (OverdueAt(l, t, x, j) <==> OverdueAt(l, s, x, j));
      }
    }
  }

  ghost predicate Synchronised(l: Limits, s: State, trace: seq<Sample>) {
    && s.last == (if trace == [] then None else Some(trace[|trace| - 1].now))
    && forall i :: 0 <= i < 7 ==> s.started[i] == Timer(ErrorTrace(l, trace, i))
  }

  lemma ReadingsIncrease(l: Limits, trace: seq<Sample>, i: nat)
    requires i < 7 && Instantaneous(l, trace)
    ensures Increasing(ErrorTrace(l, trace, i))
  {}

  lemma OverdueIffLost(l: Limits, s: State, trace: seq<Sample>, i: nat)
    requires i < 7 && trace != [] && Instantaneous(l, trace) && Synchronised(l, s, trace[..|trace| - 1])
    ensures var n := |trace| - 1;
      && (OverdueAt(l, s, trace[n], i) <==> Lost(l, trace, n, i))
      && Tick(s.started[i], Reading(trace[n].now, !Follows(l, trace[n], i))) == Timer(ErrorTrace(l, trace, i))
  {
    hide Follows;
    var n, errors := |trace| - 1, ErrorTrace(l, trace, i);
    assert errors[..n] == ErrorTrace(l, trace[..n], i) && errors[..n + 1] == errors;
    ReadingsIncrease(l, trace, i);
    ExpiredIffPersisted(errors, n, l.timeoutNs);
  }

  /** No joint has lost its leader at any sample so far. */
  ghost predicate AllFollowed(l: Limits, trace: seq<Sample>) {
    forall k, i :: 0 <= k < |trace| && 0 <= i < 7 ==> !Lost(l, trace, k, i)
  }

  lemma AllFollowedGrows(l: Limits, trace: seq<Sample>)
    requires trace != []
    ensures var n := |trace| - 1;
      AllFollowed(l, trace) <==> AllFollowed(l, trace[..n]) && forall i :: 0 <= i < 7 ==> !Lost(l, trace, n, i)
  {
    var n := |trace| - 1;
    forall k, i | 0 <= k < n && 0 <= i < 7 ensures Lost(l, trace, k, i) <==> Lost(l, trace[..n], k, i) {
      PersistedPrefix(ErrorTrace(l, trace, i), ErrorTrace(l, trace[..n], i), k, l.timeoutNs);
    }
  }

  /** In stop mode, on a run with an advancing clock and both arms in bounds, the monitor is
      silent exactly as long as no joint has an unbroken block of following errors that
      spans the timeout. */
  lemma {:induction false} StopsExactlyWhenPersistent(l: Limits, trace: seq<Sample>)
    requires l.stop && l.Valid() && Instantaneous(l, trace)
    ensures Run(l, trace).1 == None <==> AllFollowed(l, trace)
    ensures Run(l, trace).1 == None ==> Synchronised(l, Run(l, trace).0, trace)
  {
    hide Follows, Lost, InBounds;
    if trace != [] {
      var n := |trace| - 1;
      StopsExactlyWhenPersistent(l, trace[..n]);
      AllFollowedGrows(l, trace);
      if Run(l, trace[..n]).1 == None {
        LastObservation(l, Run(l, trace[..n]).0, trace);
      }
    }
  }

  lemma LastObservation(l: Limits, s: State, trace: seq<Sample>)
    requires l.stop && l.Valid() && trace != [] && Instantaneous(l, trace) && Synchronised(l, s, trace[..|trace| - 1])
    ensures var n, x := |trace| - 1, trace[|trace| - 1];
      && (Observed(l, s, x).1 == None <==> forall i :: 0 <= i < 7 ==> !Lost(l, trace, n, i))
      && (Observed(l, s, x).1 == None ==> Synchronised(l, Observed(l, s, x).0, trace))
      && (Observed(l, s, x).1.Some? ==> var e := Observed(l, s, x).1.value;
            e.fatal && e.cause.Following? && e.cause.joint < 7 && Lost(l, trace, n, e.cause.joint)
            && forall i :: 0 <= i < e.cause.joint ==> !Lost(l, trace, n, i))
  {
    var n, x := |trace| - 1, trace[|trace| - 1];
    StopModePass(l, s.(last := Some(x.now)), x, 0);
    hide Follows, Lost, InBounds, ObserveFrom, Timer, Tick, Expired;
    forall i | 0 <= i < 7
      ensures OverdueAt(l, s.(last := Some(x.now)), x, i) <==> Lost(l, trace, n, i)
      ensures Tick(s.started[i], Reading(x.now, !Follows(l, x, i))) == Timer(ErrorTrace(l, trace, i))
    {
      OverdueIffLost(l, s, trace, i);
    }
  }

  /** The first event of such a run is fatal, comes at the first sample that completes a
      block, and names the first joint whose block it completes. */
  lemma {:induction false} FirstEventNamesTheJoint(l: Limits, trace: seq<Sample>) returns (k: nat)
    requires l.stop && l.Valid() && Instantaneous(l, trace) && Run(l, trace).1.Some?
    ensures k < |trace| && AllFollowed(l, trace[..k])
    ensures var e, seen := Run(l, trace).1.value, trace[..k + 1];
      e.fatal && e.cause.Following? && e.cause.joint < 7 && Lost(l, seen, k, e.cause.joint)
      && forall i :: 0 <= i < e.cause.joint ==> !Lost(l, seen, k, i)
  {
    hide Follows, Lost, InBounds, Observed, Synchronised, AllFollowed;
    var n := |trace| - 1;
    if Run(l, trace[..n]).1.Some? {
      k := FirstEventNamesTheJoint(l, trace[..n]);
      assert trace[..n][..k] == trace[..k] && trace[..n][..k + 1] == trace[..k + 1];
    } else {
      k := n;
      StopsExactlyWhenPersistent(l, trace[..n]);
      LastObservation(l, Run(l, trace[..n]).0, trace);
      assert trace[..n + 1] == trace;
    }
  }

  // ----- every event, in both modes

  predicate Outside(v: real, min: real, max: real) { v < min || max < v }

  /** Joint i has not followed since the timer was started at least the timeout ago, and in warn mode
      this was not said yet. */
  predicate Late(l: Limits, s: State, x: Sample, i: nat)
    requires i < 7
  {
    && (x.leader[i] > x.follower[i] + l.following[i] || x.leader[i] < x.follower[i] - l.following[i])
    && s.started[i].Some? && x.now - s.started[i].value >= l.timeoutNs && (l.stop || !s.warned[i])
  }

  predicate Troubled(l: Limits, s: State, x: Sample, i: nat)
    requires i < 7
  {
    Outside(x.leader[i], l.min[i], l.max[i]) || Outside(x.follower[i], l.min[i], l.max[i]) || Late(l, s, x, i)
  }

  /** The event for a troubled joint: bounds before following, the leader before the follower; only a
      late joint in warn mode is not fatal. */
  function EventFor(l: Limits, x: Sample, i: nat): Event
    requires i < 7
  {
    if Outside(x.leader[i], l.min[i], l.max[i]) then Event(true, LeaderBounds(i))
    else if Outside(x.follower[i], l.min[i], l.max[i]) then Event(true, FollowerBounds(i))
    else Event(l.stop, Following(i))
  }

  /** The first troubled joint from i on. */
  ghost predicate FirstTrouble(l: Limits, s: State, x: Sample, i: nat, event: Option<Event>)
    requires i <= 7
  {
    match event
    case None => forall j :: i <= j < 7 ==> !Troubled(l, s, x, j)
    case Some(e) => exists j :: i <= j < 7 && Troubled(l, s, x, j) && e == EventFor(l, x, j) && forall k :: i <= k < j ==> !Troubled(l, s, x, k)
  }

  lemma {:induction false} PassExactly(l: Limits, s: State, t: State, x: Sample, i: nat)
    requires i <= 7 && forall j :: i <= j < 7 ==> t.started[j] == s.started[j] && t.warned[j] == s.warned[j]
    ensures FirstTrouble(l, s, x, i, ObserveFrom(l, t, x, i).1)
    decreases 7 - i
  {
    if i < 7 {
      var u := if !Follows(l, x, i) && t.started[i] == None then t.(started := t.started[i := Some(x.now)])
               else if Follows(l, x, i) then t.(started := t.started[i := None], warned := t.warned[i := false]) else t;
      PassExactly(l, s, u, x, i + 1);
      if !Troubled(l, s, x, i) {
        assert ObserveFrom(l, t, x, i).1 == ObserveFrom(l, u, x, i + 1).1;
      }
    }
  }

  /** Every observation in either mode: a clock that does not advance is fatal; otherwise silence says that
      no joint is troubled, and an event names the first that is and says why. */
  lemma ObservedExactly(l: Limits, s: State, x: Sample)
    ensures if s.last.Some? && x.now <= s.last.value then Observed(l, s, x) == (s, Some(Event(true, Clock)))
            else FirstTrouble(l, s, x, 0, Observed(l, s, x).1)
  {
    PassExactly(l, s, s.(last := Some(x.now)), x, 0);
    hide FirstTrouble, ObserveFrom;
    TroubleIgnoresClock(l, s, x);
  }

  lemma TroubleIgnoresClock(l: Limits, s: State, x: Sample)
    ensures forall j, last :: 0 <= j < 7 ==> Troubled(l, s.(last := last), x, j) == Troubled(l, s, x, j)
  {}

  /** In stop mode, whatever the run: silence says that the clock advanced, both arms stayed within bounds,
      and no joint failed to follow for the timeout; and any run of that kind is silent. */
  lemma {:induction false} SilenceIsExact(l: Limits, trace: seq<Sample>)
    requires l.stop && l.Valid()
    ensures Run(l, trace).1 == None <==> Instantaneous(l, trace) && AllFollowed(l, trace)
  {
    hide ObserveFrom, Lost, InBounds;
    if Run(l, trace).1 == None {
      SilentIsInstantaneous(l, trace);
    }
    if Instantaneous(l, trace) { StopsExactlyWhenPersistent(l, trace); }
  }

  lemma {:induction false} SilentIsInstantaneous(l: Limits, trace: seq<Sample>)
    requires l.stop && l.Valid() && Run(l, trace).1 == None
    ensures Instantaneous(l, trace) && (trace != [] ==> Run(l, trace).0.last == Some(trace[|trace| - 1].now))
  {
    hide Instantaneous, Observed, InBounds;
    if trace == [] {
      NothingInstantaneous(l);
    } else {
      var n := |trace| - 1;
      SilentIsInstantaneous(l, trace[..n]);
      SilentStep(l, Run(l, trace[..n]).0, trace[n]);
      InstantaneousGrows(l, trace);
    }
  }

  lemma NothingInstantaneous(l: Limits)
    ensures Instantaneous(l, [])
  {}

  ghost predicate BothWithin(l: Limits, x: Sample) {
    forall i :: 0 <= i < 7 ==> InBounds(l, x.leader, i) && InBounds(l, x.follower, i)
  }

  lemma SilentStep(l: Limits, s: State, x: Sample)
    requires Observed(l, s, x).1 == None
    ensures (s.last.Some? ==> s.last.value < x.now) && Observed(l, s, x).0.last == Some(x.now)
    ensures BothWithin(l, x)
  {
    hide ObserveFrom, Late;
    ObservedExactly(l, s, x);
    LastKept(l, s.(last := Some(x.now)), x, 0);
    forall i | 0 <= i < 7 ensures InBounds(l, x.leader, i) && InBounds(l, x.follower, i) {
      assert !Troubled(l, s, x, i);
    }
  }

  lemma InstantaneousGrows(l: Limits, trace: seq<Sample>)
    requires trace != [] && Instantaneous(l, trace[..|trace| - 1])
    requires |trace| > 1 ==> trace[|trace| - 2].now < trace[|trace| - 1].now
    requires BothWithin(l, trace[|trace| - 1])
    ensures Instantaneous(l, trace)
  {
    hide InBounds;
    var n := |trace| - 1;
    var front := trace[..n];
    assert forall i :: 0 <= i < n ==> front[i] == trace[i];
    forall i | 0 <= i < n ensures trace[i].now < trace[n].now {
      if i < n - 1 { assert front[i].now < front[n - 1].now; }
    }
  }

  lemma {:induction false} LastKept(l: Limits, s: State, x: Sample, i: nat)
    requires i <= 7
    ensures ObserveFrom(l, s, x, i).0.last == s.last
    decreases 7 - i
  {
    if i < 7 {
      LastKept(l, s, x, i + 1);
      LastKept(l, s.(started := s.started[i := None], warned := s.warned[i := false]), x, i + 1);
      LastKept(l, s.(started := s.started[i := Some(x.now)]), x, i + 1);
    }
  }

  // ----- warn mode

  /** The events of a run that goes on after each of them. */
  function RunOn(l: Limits, trace: seq<Sample>): (r: (State, seq<Option<Event>>))
    ensures |r.1| == |trace|
  {
    if trace == [] then (INITIAL, [])
    else
      var (s, events) := RunOn(l, trace[..|trace| - 1]);
      var (t, event) := Observed(l, s, trace[|trace| - 1]);
      (t, events + [event])
  }

  /** A warning that was given for joint i stands until an observation finds the joint following. */
  lemma {:induction false} WarningStands(l: Limits, s: State, x: Sample, i: nat, j: nat)
    requires i < 7 && j <= 7 && s.warned[i] && !Follows(l, x, i)
    ensures ObserveFrom(l, s, x, j).0.warned[i] && ObserveFrom(l, s, x, j).1 != Some(Event(false, Following(i)))
    decreases 7 - j
  {
    hide Follows;
    if j < 7 {
      WarningStands(l, s, x, i, j + 1);
      if Follows(l, x, j) { WarningStands(l, s.(started := s.started[j := None], warned := s.warned[j := false]), x, i, j + 1); }
      if s.started[j] == None { WarningStands(l, s.(started := s.started[j := Some(x.now)]), x, i, j + 1); }
    }
  }

  lemma {:induction false} WarningIsNoted(l: Limits, s: State, x: Sample, i: nat, j: nat)
    requires i < 7 && j <= 7 && ObserveFrom(l, s, x, j).1 == Some(Event(false, Following(i)))
    ensures ObserveFrom(l, s, x, j).0.warned[i]
    decreases 7 - j
  {
    hide Follows;
    if j < 7 && (Follows(l, x, j) || s.started[j] == None || !Expired(s.started[j], x.now, l.timeoutNs) || s.warned[j]) {
      var u := if Follows(l, x, j) then s.(started := s.started[j := None], warned := s.warned[j := false])
               else if s.started[j] == None then s.(started := s.started[j := Some(x.now)]) else s;
      WarningIsNoted(l, u, x, i, j + 1);
    }
  }

  /** Between two warnings for one joint there is an observation at which the joint follows: no block of
      following errors is warned of twice. */
  lemma WarnsOncePerBlock(l: Limits, trace: seq<Sample>, i: nat, j: nat, k: nat)
    requires i < 7 && j < k < |trace|
    requires RunOn(l, trace).1[j] == Some(Event(false, Following(i))) == RunOn(l, trace).1[k]
    ensures exists m :: j < m <= k && Follows(l, trace[m], i)
  {
    hide Follows, ObserveFrom;
    EventAt(l, trace, j);
    EventAt(l, trace, k);
    if forall m :: j < m <= k ==> !Follows(l, trace[m], i) {
      WarningLasts(l, trace, i, j, k);
      var s := RunOn(l, trace[..k]).0;
      WarningStands(l, s.(last := Some(trace[k].now)), trace[k], i, 0);
      assert false;
    }
  }

  lemma EventAt(l: Limits, trace: seq<Sample>, k: nat)
    requires k < |trace|
    ensures RunOn(l, trace[..k + 1]) == (Observed(l, RunOn(l, trace[..k]).0, trace[k]).0, RunOn(l, trace[..k]).1 + [Observed(l, RunOn(l, trace[..k]).0, trace[k]).1])
    ensures RunOn(l, trace).1[k] == Observed(l, RunOn(l, trace[..k]).0, trace[k]).1
  {
    hide Observed;
    assert trace[..k + 1][..k] == trace[..k];
    EventsOfPrefix(l, trace, k + 1);
  }

  lemma {:induction false} EventsOfPrefix(l: Limits, trace: seq<Sample>, n: nat)
    requires n <= |trace|
    ensures RunOn(l, trace[..n]).1 == RunOn(l, trace).1[..n]
    decreases |trace|
  {
    hide Observed;
    if n == |trace| {
      assert trace[..n] == trace;
    } else {
      EventsOfPrefix(l, trace[..|trace| - 1], n);
      assert trace[..|trace| - 1][..n] == trace[..n];
    }
  }

  lemma {:induction false} WarningLasts(l: Limits, trace: seq<Sample>, i: nat, j: nat, k: nat)
    requires i < 7 && j < k <= |trace| && RunOn(l, trace).1[j] == Some(Event(false, Following(i)))
    requires forall m :: j < m < k ==> !Follows(l, trace[m], i)
    ensures RunOn(l, trace[..k]).0.warned[i]
    decreases k
  {
    hide Follows, ObserveFrom;
    EventAt(l, trace, k - 1);
    var s, x := RunOn(l, trace[..k - 1]).0, trace[k - 1];
    if k - 1 == j {
      WarningIsNoted(l, s.(last := Some(x.now)), x, i, 0);
    } else {
      WarningLasts(l, trace, i, j, k - 1);
      WarningStands(l, s.(last := Some(x.now)), x, i, 0);
    }
  }

  /** All joints but i follow at every sample. */
  ghost predicate Alone(l: Limits, trace: seq<Sample>, i: nat) {
    forall k, j :: 0 <= k < |trace| && 0 <= j < 7 && j != i ==> Follows(l, trace[k], j)
  }

  /** The pass over joints j..6 when only joint i may err. */
  lemma {:induction false} PassAlone(l: Limits, s: State, x: Sample, i: nat, j: nat)
    requires !l.stop && i < 7 && j <= 7
    requires forall m :: 0 <= m < 7 ==> InBounds(l, x.leader, m) && InBounds(l, x.follower, m)
    requires forall m :: 0 <= m < 7 && m != i ==> Follows(l, x, m)
    ensures var (t, event) := ObserveFrom(l, s, x, j);
      if j > i then event == None && t.started[i] == s.started[i] && t.warned[i] == s.warned[i]
      else
        var since := Tick(s.started[i], Reading(x.now, !Follows(l, x, i)));
        var late := s.started[i].Some? && Expired(since, x.now, l.timeoutNs);
        && event == (if late && !s.warned[i] then Some(Event(false, Following(i))) else None)
        && t.started[i] == since && t.warned[i] == (!Follows(l, x, i) && (s.warned[i] || late))
    decreases 7 - j
  {
    hide Follows, InBounds;
    if j < 7 {
      PassAlone(l, s, x, i, j + 1);
      PassAlone(l, s.(started := s.started[j := None], warned := s.warned[j := false]), x, i, j + 1);
      PassAlone(l, s.(started := s.started[j := Some(x.now)]), x, i, j + 1);
    }
  }

  /** In warn mode, when only one joint errs, it is warned of exactly at the sample that completes a block
      of following errors as long as the timeout, and at no later sample of the block. */
  lemma {:induction false} WarnsExactlyWhenPersistent(l: Limits, trace: seq<Sample>, i: nat)
    requires !l.stop && l.Valid() && i < 7 && Instantaneous(l, trace) && Alone(l, trace, i)
    ensures var (s, events) := RunOn(l, trace);
      && s.started[i] == Timer(ErrorTrace(l, trace, i)) && (trace != [] ==> s.last == Some(trace[|trace| - 1].now))
      && (trace == [] ==> s.last == None)
      && (s.warned[i] <==> trace != [] && Lost(l, trace, |trace| - 1, i))
      && (trace != [] ==> events[|trace| - 1] == WarningDue(l, trace, i))
  {
    hide Follows, Lost, InBounds, ObserveFrom;
    if trace != [] {
      var n := |trace| - 1;
      var front, x := trace[..n], trace[n];
      InstantaneousFront(l, trace);
      assert Alone(l, front, i);
      WarnsExactlyWhenPersistent(l, front, i);
      var s := RunOn(l, front).0;
      LastKept(l, s.(last := Some(x.now)), x, 0);
      PassAlone(l, s.(last := Some(x.now)), x, i, 0);
      AloneStep(l, trace, i);
    }
  }

  /** What the last sample gives cause for. */
  ghost function WarningDue(l: Limits, trace: seq<Sample>, i: nat): Option<Event>
    requires i < 7 && trace != []
  {
    if Lost(l, trace, |trace| - 1, i) && !LostBefore(l, trace, i) then Some(Event(false, Following(i))) else None
  }

  /** The block was that long one sample ago already. */
  ghost predicate LostBefore(l: Limits, trace: seq<Sample>, i: nat)
    requires i < 7 && trace != []
  {
    |trace| > 1 && Lost(l, trace[..|trace| - 1], |trace| - 2, i)
  }

  lemma InstantaneousFront(l: Limits, trace: seq<Sample>)
    requires Instantaneous(l, trace) && trace != []
    ensures Instantaneous(l, trace[..|trace| - 1])
    ensures |trace| > 1 ==> trace[|trace| - 2].now < trace[|trace| - 1].now
  {
    hide InBounds;
    var front := trace[..|trace| - 1];
    assert forall k :: 0 <= k < |front| ==> front[k] == trace[k];
  }

  lemma AloneStep(l: Limits, trace: seq<Sample>, i: nat)
    requires i < 7 && trace != [] && l.Valid() && Instantaneous(l, trace)
    ensures var n := |trace| - 1;
      var before, bad := Timer(ErrorTrace(l, trace[..n], i)), !Follows(l, trace[n], i);
      var since := Tick(before, Reading(trace[n].now, bad));
      && since == Timer(ErrorTrace(l, trace, i))
      && (Lost(l, trace, n, i) <==> before.Some? && Expired(since, trace[n].now, l.timeoutNs))
      && (bad && LostBefore(l, trace, i) ==> Lost(l, trace, n, i))
      && (Lost(l, trace, n, i) ==> bad)
  {
    hide Follows, InBounds, Persisted;
    var n := |trace| - 1;
    var errors := ErrorTrace(l, trace, i);
    ReadingsIncrease(l, trace, i);
    assert errors[..n] == ErrorTrace(l, trace[..n], i) && errors[..n + 1] == errors;
    ExpiredIffPersisted(errors, n, l.timeoutNs);
    if n > 0 {
      PersistedPrefix(errors, errors[..n], n - 1, l.timeoutNs);
      ExpiredIffPersisted(errors, n - 1, l.timeoutNs);
      assert errors[..n - 1 + 1] == errors[..n];
    }
  }
}
