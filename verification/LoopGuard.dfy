/** When the guard ends a paired session: over whole runs of the control loop, in terms of the feedback,
    the phase and the times of its ticks alone. */
module LoopGuard {
  import opened Common
  import opened AutoSpec
  import opened Persistence
  import opened ControlLoop
  import AutoGuard
  import SettlingGate

  // ----- what is demanded of a tick, in plain terms

  /** An operator handles the arm: in both waiting phases, acknowledged or not. */
  predicate Handled(spec: AutoSpec, y: Loop) {
    spec.handling.Some? && (y.session.state.phase == 1 || y.session.state.phase == 3)
  }

  /** The measured state of motor i is in order: fresh, in range, near the reference, within torque and
      temperature, enabled, and no faster than the limit of the phase. */
  predicate InOrder(spec: AutoSpec, reference: Vec8, previous: nat, y: Loop, tick: Tick, i: nat)
    requires i < 8 && |spec.motors| == 8
  {
    var m, s := spec.motors[i], tick.feedback[i];
    && 0 < s.stampNs && previous <= s.stampNs <= tick.checkedAt && tick.checkedAt - s.stampNs <= spec.stateTimeoutNs
    && m.minDeg <= s.position <= m.maxDeg && reference[i] - m.excursion <= s.position <= reference[i] + m.excursion
    && -m.torque <= s.torque <= m.torque && s.mosTemperature <= spec.temperature && s.rotorTemperature <= spec.temperature
    && !s.endpoint && s.status == spec.enabledStatus
    && var limit := if Handled(spec, y) then spec.handling.value.hardSpeed[i] else m.speed; -limit <= s.velocity <= limit
  }

  /** Under handling motor i moves faster than the motion itself may. */
  predicate Fast(spec: AutoSpec, y: Loop, tick: Tick, i: nat)
    requires i < 8 && |spec.motors| == 8
  {
    Handled(spec, y) && (tick.feedback[i].velocity > spec.motors[i].speed || tick.feedback[i].velocity < -spec.motors[i].speed)
  }

  /** Motor i is off its commanded position. */
  predicate Off(spec: AutoSpec, reference: Vec8, y: Loop, tick: Tick, i: nat)
    requires Valid(spec, reference) && i < 8
  {
    var target := Commanded(spec, reference, y.session.state, y.session.state.last)[i];
    tick.feedback[i].position > target + spec.motors[i].tracking || tick.feedback[i].position < target - spec.motors[i].tracking
  }

  /** A violation that was going on before the loop began counts from when it began. */
  function Earlier(since: nat): seq<Reading> { if since == 0 then [] else [Reading(since, true)] }

  function FastReadings(
    spec: AutoSpec, startNs: nat, reference: Vec8, armed: AutoGuard.Guard, ticks: seq<Tick>, i: nat): seq<Reading>
    requires Valid(spec, reference) && i < 8
    decreases |ticks|
  {
    if ticks == [] then Earlier(armed.speedSince[i])
    else
      var n := |ticks| - 1;
      FastReadings(spec, startNs, reference, armed, ticks[..n], i)
      + [Reading(ticks[n].checkedAt, Fast(spec, Run(spec, startNs, reference, armed, ticks), ticks[n], i))]
  }

  function OffReadings(
    spec: AutoSpec, startNs: nat, reference: Vec8, armed: AutoGuard.Guard, ticks: seq<Tick>, i: nat): seq<Reading>
    requires Valid(spec, reference) && i < 8
    decreases |ticks|
  {
    if ticks == [] then Earlier(armed.errorSince[i])
    else
      var n := |ticks| - 1;
      OffReadings(spec, startNs, reference, armed, ticks[..n], i)
      + [Reading(ticks[n].checkedAt, Off(spec, reference, Run(spec, startNs, reference, armed, ticks), ticks[n], i))]
  }

  /** When the guard was asked last. */
  function LastCheck(armed: AutoGuard.Guard, ticks: seq<Tick>): nat {
    if ticks == [] then armed.lastNow else ticks[|ticks| - 1].checkedAt
  }

  /** The stamp motor i showed last. */
  function LastStamp(armed: AutoGuard.Guard, ticks: seq<Tick>, i: nat): nat
    requires i < 8
  {
    if ticks == [] then armed.lastSource[i] else ticks[|ticks| - 1].feedback[i].stampNs
  }

  /** The last violation in the readings has lasted for the timeout. */
  ghost predicate Lasted(readings: seq<Reading>, timeout: nat) {
    readings != [] && Persisted(readings, |readings| - 1, timeout)
  }

  /** Motor i ends the loop at this tick. */
  ghost predicate Stops(spec: AutoSpec, startNs: nat, reference: Vec8, armed: AutoGuard.Guard, ticks: seq<Tick>, i: nat)
    requires Valid(spec, reference) && ticks != [] && i < 8
  {
    var n := |ticks| - 1;
    || !InOrder(spec, reference, LastStamp(armed, ticks[..n], i), Run(spec, startNs, reference, armed, ticks), ticks[n], i)
    || Lasted(OffReadings(spec, startNs, reference, armed, ticks, i), spec.trackingTimeoutNs)
    || (spec.handling.Some? && Lasted(FastReadings(spec, startNs, reference, armed, ticks, i), spec.handling.value.speedPersistenceNs))
  }

  // ----- the guard's clocks are the readings

  /** A guard as it is when the loop begins: armed, no clock ahead of its last call. */
  predicate Ready(g: AutoGuard.Guard, reference: Vec8) {
    Armed(g, reference) && forall i :: 0 <= i < 8 ==> g.errorSince[i] <= g.lastNow && g.speedSince[i] <= g.lastNow
  }

  /** What the readings of a motor are worth: in order of time, none later than the last call, and the
      clock is that of their timer. */
  ghost predicate Follows(readings: seq<Reading>, clock: nat, last: nat) {
    && Increasing(readings) && (forall k :: 0 <= k < |readings| ==> 0 < readings[k].now <= last)
    && clock == AutoGuard.ToClock(Timer(readings))
  }

  ghost predicate InStep(
    spec: AutoSpec, startNs: nat, reference: Vec8, armed: AutoGuard.Guard, ticks: seq<Tick>, g: AutoGuard.Guard, i: nat)
    requires Valid(spec, reference) && i < 8
  {
    && g.lastSource[i] == LastStamp(armed, ticks, i)
    && Follows(OffReadings(spec, startNs, reference, armed, ticks, i), g.errorSince[i], g.lastNow)
    && Follows(FastReadings(spec, startNs, reference, armed, ticks, i), g.speedSince[i], g.lastNow)
  }

  ghost predicate AllInStep(
    spec: AutoSpec, startNs: nat, reference: Vec8, armed: AutoGuard.Guard, ticks: seq<Tick>, g: AutoGuard.Guard)
    requires Valid(spec, reference)
  {
    g.lastNow == LastCheck(armed, ticks) && forall i :: 0 <= i < 8 ==> InStep(spec, startNs, reference, armed, ticks, g, i)
  }

  lemma EarlierFollows(since: nat, last: nat)
    requires since <= last
    ensures Follows(Earlier(since), since, last)
  {
    if since > 0 {
      assert Earlier(since)[..0] == [];
      assert Timer([]) == None;
    }
  }

  lemma OneMoreFollows(readings: seq<Reading>, clock: nat, last: nat, r: Reading, timeout: nat)
    requires Follows(readings, clock, last) && last < r.now
    ensures Follows(readings + [r], AutoGuard.NextClock(clock, r.now, r.bad), r.now)
    ensures AutoGuard.Overdue(clock, r.now, r.bad, timeout) <==> Lasted(readings + [r], timeout)
  {
    hide Timer, AutoGuard.NextClock, AutoGuard.Overdue, Persisted;
    var longer := readings + [r];
    assert longer[..|readings|] == readings && longer[|readings|] == r;
    AutoGuard.ClockVerdict(longer, timeout);
  }

  /** The guard's own words for a motor, against the plain ones. */
  lemma MotorAgrees(
    spec: AutoSpec, startNs: nat, reference: Vec8, armed: AutoGuard.Guard, ticks: seq<Tick>, g: AutoGuard.Guard, i: nat)
    requires Valid(spec, reference) && i < 8 && ticks != [] && g.reference == reference
    requires InStep(spec, startNs, reference, armed, ticks[..|ticks| - 1], g, i) && g.lastNow < ticks[|ticks| - 1].checkedAt
    requires var y := Run(spec, startNs, reference, armed, ticks); y.session.state.start <= y.session.state.last
    ensures var n, y := |ticks| - 1, Run(spec, startNs, reference, armed, ticks);
      var target := Commanded(spec, reference, y.session.state, y.session.state.last);
      var x := Shown(spec, y.session.state, ticks[n], target);
      && |spec.motors| == 8 && (x.handling ==> spec.handling.Some?)
      && (AutoGuard.MotorOk(spec, g, x, i) <==> !Stops(spec, startNs, reference, armed, ticks, i))
      && Follows(OffReadings(spec, startNs, reference, armed, ticks, i),
                 AutoGuard.NextClock(g.errorSince[i], x.now, AutoGuard.Straying(spec, x, i)), x.now)
      && Follows(FastReadings(spec, startNs, reference, armed, ticks, i),
                 AutoGuard.NextClock(g.speedSince[i], x.now, AutoGuard.Hurrying(spec, x, i)), x.now)
  {
    hide Follows, Run, Lasted, AutoGuard.NextClock, Commanded, Valid, AutoGuard.InstantOk, InOrder,
      Off, Fast, AutoGuard.Straying, AutoGuard.Hurrying, OffReadings, FastReadings, LastStamp, AutoSpec.Valid,
      AutoGuard.TargetOk, Safe, AutoGuard.StateOk;
    ValidSpec(spec, reference);
    EightMotors(spec);
    var n, y := |ticks| - 1, Run(spec, startNs, reference, armed, ticks);
    var tick, s := ticks[n], y.session.state;
    var target := Commanded(spec, reference, s, s.last);
    var x := Shown(spec, s, tick, target);
    CommandedSafe(spec, reference, s, s.last);
    SafeTarget(spec, reference, Command(s.last, target), i);
    OneMoreFollows(OffReadings(spec, startNs, reference, armed, ticks[..n], i), g.errorSince[i], g.lastNow,
                   Reading(tick.checkedAt, Off(spec, reference, y, tick, i)), spec.trackingTimeoutNs);
    OneMoreFollows(FastReadings(spec, startNs, reference, armed, ticks[..n], i), g.speedSince[i], g.lastNow,
                   Reading(tick.checkedAt, Fast(spec, y, tick, i)),
                   if spec.handling.Some? then spec.handling.value.speedPersistenceNs else 0);
    PlainWords(spec, reference, g, y, tick, i);
    ReadingsGrow(spec, startNs, reference, armed, ticks, i);
  }

  lemma EightMotors(spec: AutoSpec)
    requires spec.Valid()
    ensures |spec.motors| == 8
  {}

  lemma ReadingsGrow(
    spec: AutoSpec, startNs: nat, reference: Vec8, armed: AutoGuard.Guard, ticks: seq<Tick>, i: nat)
    requires Valid(spec, reference) && i < 8 && ticks != []
    ensures var n, y := |ticks| - 1, Run(spec, startNs, reference, armed, ticks);
      && OffReadings(spec, startNs, reference, armed, ticks, i)
           == OffReadings(spec, startNs, reference, armed, ticks[..n], i)
              + [Reading(ticks[n].checkedAt, Off(spec, reference, y, ticks[n], i))]
      && FastReadings(spec, startNs, reference, armed, ticks, i)
           == FastReadings(spec, startNs, reference, armed, ticks[..n], i)
              + [Reading(ticks[n].checkedAt, Fast(spec, y, ticks[n], i))]
  {
    hide Run, Off, Fast, Valid;
  }

  lemma {:induction false} LiveIsInStep(
    spec: AutoSpec, startNs: nat, reference: Vec8, armed: AutoGuard.Guard, ticks: seq<Tick>)
    requires Valid(spec, reference) && Ready(armed, reference)
    ensures var x := Run(spec, startNs, reference, armed, ticks);
      x.Live() ==> Armed(x.guard, reference) && AllInStep(spec, startNs, reference, armed, ticks, x.guard)
    decreases |ticks|
  {
    hide Run, AllInStep, Ready, TickStep, Valid;
    if ticks == [] {
      NothingTicked(spec, startNs, reference, armed);
    } else {
      var front, n := ticks[..|ticks| - 1], |ticks| - 1;
      LiveIsInStep(spec, startNs, reference, armed, front);
      RunOneTick(spec, startNs, reference, armed, ticks);
      if Run(spec, startNs, reference, armed, ticks).Live() {
        LiveBefore(spec, startNs, reference, Run(spec, startNs, reference, armed, front), ticks[n]);
        PassedIsInStep(spec, startNs, reference, armed, ticks);
      }
    }
  }

  lemma NothingTicked(spec: AutoSpec, startNs: nat, reference: Vec8, armed: AutoGuard.Guard)
    requires Valid(spec, reference) && Ready(armed, reference)
    ensures var x := Run(spec, startNs, reference, armed, []);
      Armed(x.guard, reference) && AllInStep(spec, startNs, reference, armed, [], x.guard)
  {
    hide Follows, Valid;
    forall i | 0 <= i < 8 ensures InStep(spec, startNs, reference, armed, [], armed, i) {
      EarlierFollows(armed.errorSince[i], armed.lastNow);
      EarlierFollows(armed.speedSince[i], armed.lastNow);
    }
  }

  lemma RunOneTick(spec: AutoSpec, startNs: nat, reference: Vec8, armed: AutoGuard.Guard, ticks: seq<Tick>)
    requires Valid(spec, reference) && ticks != []
    ensures var n := |ticks| - 1;
      Run(spec, startNs, reference, armed, ticks)
        == TickStep(spec, startNs, reference, Run(spec, startNs, reference, armed, ticks[..n]), ticks[n])
  {
    hide Valid, TickStep;
  }

  lemma LiveBefore(spec: AutoSpec, startNs: nat, reference: Vec8, x: Loop, tick: Tick)
    requires Valid(spec, reference) && x.session.state.phase <= 5 && TickStep(spec, startNs, reference, x, tick).Live()
    ensures x.Live() && ReachedGuard(x, TickStep(spec, startNs, reference, x, tick))
    ensures TickStep(spec, startNs, reference, x, tick).fault != Some(GuardFailed)
  {
    hide Valid, Commanded, Stepped, AutoGuard.Checked;
    if x.Live() { var stable := FirstHalf(spec, startNs, x, tick); }
  }

  /** What the guard says of the last tick, if it gets there. */
  lemma TickVerdict(spec: AutoSpec, startNs: nat, reference: Vec8, armed: AutoGuard.Guard, ticks: seq<Tick>)
    requires Valid(spec, reference) && Ready(armed, reference) && ticks != []
    requires var x := Run(spec, startNs, reference, armed, ticks[..|ticks| - 1]);
      && Armed(x.guard, reference) && AllInStep(spec, startNs, reference, armed, ticks[..|ticks| - 1], x.guard)
      && ReachedGuard(x, Run(spec, startNs, reference, armed, ticks))
    ensures var n := |ticks| - 1; var y := Run(spec, startNs, reference, armed, ticks);
      y.fault != Some(GuardFailed) <==>
        && ticks[n].checkedAt > LastCheck(armed, ticks[..n])
        && forall i :: 0 <= i < 8 ==> !Stops(spec, startNs, reference, armed, ticks, i)
    ensures var y := Run(spec, startNs, reference, armed, ticks);
      y.fault != Some(GuardFailed) ==> AllInStep(spec, startNs, reference, armed, ticks, y.guard) && Armed(y.guard, reference)
  {
    hide Run, Valid, TickStep, Commanded, AutoGuard.MotorOk, AutoGuard.NextClock, AutoGuard.Straying, AutoGuard.Hurrying,
      Stops, Follows, OffReadings, FastReadings, LoopInvariant, AutoSpec.Valid, AutoGuard.Checked;
    var n := |ticks| - 1;
    var x, y := Run(spec, startNs, reference, armed, ticks[..n]), Run(spec, startNs, reference, armed, ticks);
    var s := y.session.state;
    ValidSpec(spec, reference);
    EightMotors(spec);
    RunInvariant(spec, startNs, reference, armed, ticks);
    StartsBeforeLast(spec, startNs, y);
    RunOneTick(spec, startNs, reference, armed, ticks);
    GuardVerdict(spec, startNs, reference, x, ticks[n]);
    GuardAfter(spec, startNs, reference, x, ticks[n]);
    CommandedTargets(spec, reference, s, s.last);
    if ticks[n].checkedAt > LastCheck(armed, ticks[..n]) {
      forall i | 0 <= i < 8
        ensures AutoGuard.MotorOk(spec, x.guard, Shown(spec, s, ticks[n], Commanded(spec, reference, s, s.last)), i)
           <==> !Stops(spec, startNs, reference, armed, ticks, i)
        ensures y.fault != Some(GuardFailed) ==> InStep(spec, startNs, reference, armed, ticks, y.guard, i)
      {
        assert InStep(spec, startNs, reference, armed, ticks[..n], x.guard, i);
        MotorAgrees(spec, startNs, reference, armed, ticks, x.guard, i);
      }
    }
  }

  /** A tick that passes the guard leaves it as `Passed` says. */
  lemma GuardAfter(spec: AutoSpec, startNs: nat, reference: Vec8, x: Loop, tick: Tick)
    requires Valid(spec, reference) && x.session.state.phase <= 5
    requires ReachedGuard(x, TickStep(spec, startNs, reference, x, tick))
    ensures var y := TickStep(spec, startNs, reference, x, tick);
      y.fault != Some(GuardFailed) ==>
        y.guard == AutoGuard.Passed(spec, x.guard, Shown(spec, y.session.state, tick, Commanded(spec, reference, y.session.state, y.session.state.last)))
  {
    hide Commanded, AutoGuard.Checked, AutoGuard.Passed, AutoGuard.Passes, Stepped, Valid;
    var stable := FirstHalf(spec, startNs, x, tick);
    var y := TickStep(spec, startNs, reference, x, tick);
    ValidSpec(spec, reference);
    EightMotors(spec);
    AutoGuard.CheckedPasses(spec, x.guard, Shown(spec, y.session.state, tick, Commanded(spec, reference, y.session.state, y.session.state.last)));
    assert y.session.state.last == Elapsed(startNs, tick.now);
  }

  lemma PassedIsInStep(spec: AutoSpec, startNs: nat, reference: Vec8, armed: AutoGuard.Guard, ticks: seq<Tick>)
    requires Valid(spec, reference) && Ready(armed, reference) && ticks != []
    requires var x := Run(spec, startNs, reference, armed, ticks[..|ticks| - 1]);
      && Armed(x.guard, reference) && AllInStep(spec, startNs, reference, armed, ticks[..|ticks| - 1], x.guard)
      && ReachedGuard(x, Run(spec, startNs, reference, armed, ticks))
      && Run(spec, startNs, reference, armed, ticks).fault != Some(GuardFailed)
    ensures var y := Run(spec, startNs, reference, armed, ticks);
      AllInStep(spec, startNs, reference, armed, ticks, y.guard) && Armed(y.guard, reference)
  {
    hide Run, AllInStep, Stops, Valid;
    TickVerdict(spec, startNs, reference, armed, ticks);
  }

  // ----- the verdict

  /** At every tick of every run that gets as far as the guard, the guard ends the loop if and only if its
      clock has not advanced or some motor is out of order, has been off its command for the tracking
      timeout, or, while an operator handles the arm, has been fast for the persistence time. */
  lemma GuardStopsExactly(spec: AutoSpec, startNs: nat, reference: Vec8, armed: AutoGuard.Guard, ticks: seq<Tick>)
    requires Valid(spec, reference) && Ready(armed, reference) && ticks != []
    requires ReachedGuard(Run(spec, startNs, reference, armed, ticks[..|ticks| - 1]), Run(spec, startNs, reference, armed, ticks))
    ensures var n := |ticks| - 1;
      Run(spec, startNs, reference, armed, ticks).fault == Some(GuardFailed) <==>
        || ticks[n].checkedAt <= LastCheck(armed, ticks[..n])
        || exists i :: 0 <= i < 8 && Stops(spec, startNs, reference, armed, ticks, i)
  {
    hide Run, AllInStep, Stops, Valid, Ready;
    LiveIsInStep(spec, startNs, reference, armed, ticks[..|ticks| - 1]);
    TickVerdict(spec, startNs, reference, armed, ticks);
  }

  /** While an operator handles the arm, all else being in order, a speed between the two limits ends the
      loop exactly when it has lasted; a motor over the limit of its phase, or not enabled, ends it at
      once, and so does any speed above the automatic limit in a sweep. */
  lemma SpeedEndsTheLoop(
    spec: AutoSpec, startNs: nat, reference: Vec8, armed: AutoGuard.Guard, ticks: seq<Tick>, i: nat)
    requires Valid(spec, reference) && Ready(armed, reference) && ticks != [] && i < 8
    requires ReachedGuard(Run(spec, startNs, reference, armed, ticks[..|ticks| - 1]), Run(spec, startNs, reference, armed, ticks))
    requires ticks[|ticks| - 1].checkedAt > LastCheck(armed, ticks[..|ticks| - 1])
    requires forall j :: 0 <= j < 8 && j != i ==> !Stops(spec, startNs, reference, armed, ticks, j)
    ensures |spec.motors| == 8
    ensures var n, y := |ticks| - 1, Run(spec, startNs, reference, armed, ticks);
      var v, limit := ticks[n].feedback[i].velocity, spec.motors[i].speed;
      && ((v > limit || v < -limit) && y.session.state.phase in {0, 2, 4} ==> y.fault == Some(GuardFailed))
      && (ticks[n].feedback[i].status != spec.enabledStatus ==> y.fault == Some(GuardFailed))
      && (Handled(spec, y) && InOrder(spec, reference, LastStamp(armed, ticks[..n], i), y, ticks[n], i)
          && !Off(spec, reference, y, ticks[n], i) ==>
            (y.fault == Some(GuardFailed) <==>
              Lasted(FastReadings(spec, startNs, reference, armed, ticks, i), spec.handling.value.speedPersistenceNs)))
  {
    hide Run, Valid, Ready, OffReadings, FastReadings, AutoSpec.Valid;
    ValidSpec(spec, reference);
    EightMotors(spec);
    GuardStopsExactly(spec, startNs, reference, armed, ticks);
    ReadingsGrow(spec, startNs, reference, armed, ticks, i);
    NotOffNotLasted(OffReadings(spec, startNs, reference, armed, ticks, i), spec.trackingTimeoutNs);
    hide Lasted, Off;
    assert Run(spec, startNs, reference, armed, ticks).fault == Some(GuardFailed)
      <==> Stops(spec, startNs, reference, armed, ticks, i);
  }

  lemma NotOffNotLasted(readings: seq<Reading>, timeout: nat)
    ensures readings != [] && !readings[|readings| - 1].bad ==> !Lasted(readings, timeout)
  {}

  lemma PlainWords(spec: AutoSpec, reference: Vec8, g: AutoGuard.Guard, y: Loop, tick: Tick, i: nat)
    requires Valid(spec, reference) && i < 8 && |spec.motors| == 8 && g.reference == reference
    requires AutoGuard.TargetOk(spec.motors[i], Commanded(spec, reference, y.session.state, y.session.state.last)[i], reference[i])
    ensures var x := Shown(spec, y.session.state, tick, Commanded(spec, reference, y.session.state, y.session.state.last));
      && (x.handling ==> spec.handling.Some?)
      && (AutoGuard.InstantOk(spec, reference, g.lastSource[i], x, i) <==> InOrder(spec, reference, g.lastSource[i], y, tick, i))
      && (AutoGuard.Straying(spec, x, i) <==> Off(spec, reference, y, tick, i))
      && (AutoGuard.Hurrying(spec, x, i) <==> Fast(spec, y, tick, i)) && (Fast(spec, y, tick, i) ==> x.handling)
  {
    hide Valid, Commanded;
  }
}
