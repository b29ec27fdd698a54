/** The latching guard of the automatic owner: instantaneous limits on every motor and two
    persistence timers, tracking error and speed under manual handling. */
module AutoGuard {
  import opened Common
  import opened AutoSpec
  import opened Persistence
  import opened SettlingGate

  /** One clock per motor; zero means "not running". */
  type Clocks = c: seq<nat> | |c| == 8 witness [0, 0, 0, 0, 0, 0, 0, 0]

  datatype Guard = Guard(
    ready: bool, failed: bool, reference: Vec8, lastNow: nat,
    lastSource: Clocks, errorSince: Clocks, speedSince: Clocks)

  /** One call of check. */
  datatype Sample = Sample(now: nat, states: Feedback, target: Vec8, enabled: bool, handling: bool)

  const NO_CLOCKS: Clocks := [0, 0, 0, 0, 0, 0, 0, 0]
  const UNSET := Guard(false, false, [0.0, 0.0, 0.0, 0.0, 0.0, 0.0, 0.0, 0.0], 0, NO_CLOCKS, NO_CLOCKS, NO_CLOCKS)

  // ----- one motor, one instant

  predicate StampOk(spec: AutoSpec, stamp: nat, previous: nat, now: nat) {
    stamp > 0 && stamp <= now && now - stamp <= spec.stateTimeoutNs && stamp >= previous
  }

  /** What the guard demands of the commanded position of a motor. */
  predicate TargetOk(m: AutoMotor, target: real, reference: real) {
    m.minDeg <= target <= m.maxDeg && Abs(target - reference) <= m.excursion
  }

  /** What it demands of the measured state. */
  predicate StateOk(spec: AutoSpec, m: AutoMotor, s: MotorSample, reference: real) {
    && m.minDeg <= s.position <= m.maxDeg && Abs(s.position - reference) <= m.excursion && Abs(s.torque) <= m.torque
    && s.mosTemperature <= spec.temperature && s.rotorTemperature <= spec.temperature && !s.endpoint
  }

  predicate PostureOk(spec: AutoSpec, m: AutoMotor, s: MotorSample, target: real, reference: real) {
    StateOk(spec, m, s, reference) && TargetOk(m, target, reference)
  }

  predicate StatusOk(spec: AutoSpec, status: nat, enabled: bool) {
    status == spec.enabledStatus || (!enabled && status == spec.disabledStatus)
  }

  function SpeedLimit(spec: AutoSpec, i: nat, handling: bool): real
    requires i < 8 && |spec.motors| == 8 && (handling ==> spec.handling.Some?)
  {
    if handling then spec.handling.value.hardSpeed[i] else spec.motors[i].speed
  }

  /** Everything check demands of motor i that does not depend on a timer. */
  predicate InstantOk(spec: AutoSpec, reference: Vec8, previous: nat, x: Sample, i: nat)
    requires i < 8 && |spec.motors| == 8 && (x.handling ==> spec.handling.Some?)
  {
    var s, m := x.states[i], spec.motors[i];
    && StampOk(spec, s.stampNs, previous, x.now) && PostureOk(spec, m, s, x.target[i], reference[i])
    && Abs(s.velocity) <= SpeedLimit(spec, i, x.handling) && StatusOk(spec, s.status, x.enabled)
  }

  /** Check's demands on the call itself. */
  predicate ContextOk(spec: AutoSpec, reference: Vec8, lastNow: nat, x: Sample) {
    x.now > lastNow && (x.handling ==> x.enabled && spec.handling.Some? && x.target == reference)
  }

  predicate Straying(spec: AutoSpec, x: Sample, i: nat)
    requires i < 8 && |spec.motors| == 8
  {
    Abs(x.states[i].position - x.target[i]) > spec.motors[i].tracking
  }

  predicate Hurrying(spec: AutoSpec, x: Sample, i: nat)
    requires i < 8 && |spec.motors| == 8
  {
    x.handling && Abs(x.states[i].velocity) > spec.motors[i].speed
  }

  // ----- one call

  function NextClock(since: nat, now: nat, bad: bool): nat {
    if !bad then 0 else if since == 0 then now else since
  }

  predicate Overdue(since: nat, now: nat, bad: bool, timeout: nat) {
    bad && now >= NextClock(since, now, bad) + timeout
  }

  predicate MotorOk(spec: AutoSpec, g: Guard, x: Sample, i: nat)
    requires i < 8 && |spec.motors| == 8 && (x.handling ==> spec.handling.Some?)
  {
    && InstantOk(spec, g.reference, g.lastSource[i], x, i)
    && !Overdue(g.errorSince[i], x.now, Straying(spec, x, i), spec.trackingTimeoutNs)
    && !(x.handling && Overdue(g.speedSince[i], x.now, Hurrying(spec, x, i), spec.handling.value.speedPersistenceNs))
  }

  predicate Passes(spec: AutoSpec, g: Guard, x: Sample)
    requires |spec.motors| == 8
  {
    !g.failed && g.ready && ContextOk(spec, g.reference, g.lastNow, x) && forall i :: 0 <= i < 8 ==> MotorOk(spec, g, x, i)
  }

  /** The guard after a call that passed. */
  function Passed(spec: AutoSpec, g: Guard, x: Sample): Guard
    requires |spec.motors| == 8
  {
    Guard(true, false, g.reference, x.now,
          seq(8, i requires 0 <= i < 8 => x.states[i].stampNs),
          seq(8, i requires 0 <= i < 8 => NextClock(g.errorSince[i], x.now, Straying(spec, x, i))),
          seq(8, i requires 0 <= i < 8 => NextClock(g.speedSince[i], x.now, Hurrying(spec, x, i))))
  }

  /** The limits of one motor that no timer is involved in, up to its speed. */
  predicate LimitsOk(spec: AutoSpec, g: Guard, x: Sample, i: nat)
    requires i < 8 && |spec.motors| == 8 && (x.handling ==> spec.handling.Some?)
  {
    && PostureOk(spec, spec.motors[i], x.states[i], x.target[i], g.reference[i])
    && Abs(x.states[i].velocity) <= SpeedLimit(spec, i, x.handling)
  }

  /** The timer of the speed under handling. */
  function SpeedChecked(spec: AutoSpec, g: Guard, x: Sample, i: nat): (Guard, bool)
    requires i < 8 && |spec.motors| == 8 && (x.handling ==> spec.handling.Some?)
  {
    var clock := NextClock(g.speedSince[i], x.now, Hurrying(spec, x, i));
    var next := g.(speedSince := g.speedSince[i := clock]);
    if x.handling && Overdue(g.speedSince[i], x.now, Hurrying(spec, x, i), spec.handling.value.speedPersistenceNs) then
      (next.(failed := true), false)
    else (next, true)
  }

  /** The timer of the tracking error. */
  function TrackingChecked(spec: AutoSpec, g: Guard, x: Sample, i: nat): (Guard, bool)
    requires i < 8 && |spec.motors| == 8
  {
    var clock := NextClock(g.errorSince[i], x.now, Straying(spec, x, i));
    var next := g.(errorSince := g.errorSince[i := clock]);
    if Overdue(g.errorSince[i], x.now, Straying(spec, x, i), spec.trackingTimeoutNs) then (next.(failed := true), false)
    else (next, true)
  }

  /** Motor i's checks and timers in order: a failed check leaves what came before it. */
  function MotorChecked(spec: AutoSpec, g: Guard, x: Sample, i: nat): (Guard, bool)
    requires i < 8 && |spec.motors| == 8 && (x.handling ==> spec.handling.Some?)
  {
    var stamp := x.states[i].stampNs;
    if !StampOk(spec, stamp, g.lastSource[i], x.now) then (g.(failed := true), false)
    else
      var g1 := g.(lastSource := g.lastSource[i := stamp]);
      if !LimitsOk(spec, g1, x, i) then (g1.(failed := true), false)
      else
        var (g2, slow) := SpeedChecked(spec, g1, x, i);
        if !slow then (g2, false)
        else if !StatusOk(spec, x.states[i].status, x.enabled) then (g2.(failed := true), false)
        else TrackingChecked(spec, g2, x, i)
  }

  /** Motors i..7 in order, up to the first that fails. */
  function CheckedFrom(spec: AutoSpec, g: Guard, x: Sample, i: nat): (Guard, bool)
    requires i <= 8 && |spec.motors| == 8 && (x.handling ==> spec.handling.Some?)
    decreases 8 - i
  {
    if i == 8 then (g, true)
    else
      var (next, ok) := MotorChecked(spec, g, x, i);
      if ok then CheckedFrom(spec, next, x, i + 1) else (next, false)
  }

  /** One call of check: the guard it leaves, passed or failed, and the verdict. */
  function Checked(spec: AutoSpec, g: Guard, x: Sample): (Guard, bool)
    requires |spec.motors| == 8
  {
    if g.failed || !g.ready || x.now <= g.lastNow then (g.(failed := true), false)
    else
      var g1 := g.(lastNow := x.now);
      if x.handling && (!x.enabled || spec.handling == None || x.target != g.reference) then (g1.(failed := true), false)
      else CheckedFrom(spec, g1, x, 0)
  }

  class Monitor {
    const spec: AutoSpec
    var ready: bool
    var failed: bool
    var reference: Vec8
    var lastNow: nat
    var lastSource: Clocks
    var errorSince: Clocks
    var speedSince: Clocks

    constructor (spec: AutoSpec)
      requires spec.Valid()
      ensures this.spec == spec && View() == UNSET
    {
      this.spec := spec;
      ready, failed, reference, lastNow := false, false, UNSET.reference, 0;
      lastSource, errorSince, speedSince := NO_CLOCKS, NO_CLOCKS, NO_CLOCKS;
    }

    function View(): Guard
      reads this
    {
      Guard(ready, failed, reference, lastNow, lastSource, errorSince, speedSince)
    }

    /** Accepts one reference, once; a rejected reference faults the guard for good. */
    method SetReference(q: Vec8) returns (ok: bool)
      requires spec.Valid()
      modifies this
      ensures ok <==> !old(ready) && !old(failed) && spec.AcceptsReference(q)
      ensures ok ==> View() == old(View()).(ready := true, reference := q)
      ensures !ok ==> View() == if old(ready) || old(failed) then old(View()) else old(View()).(failed := true, reference := q)
    {
      if ready || failed { return false; }
      reference := q;
      for i := 0 to 8
        invariant View() == old(View()).(reference := q)
        invariant forall j :: 0 <= j < i ==> spec.motors[j].minDeg <= q[j] <= spec.motors[j].maxDeg
      {
        if q[i] < spec.motors[i].minDeg || q[i] > spec.motors[i].maxDeg { failed := true; return false; }
      }
      if spec.waypoints == [] {
        var a := spec.activeMotor;
        if q[a] - spec.amplitude < spec.motors[a].minDeg || q[a] + spec.amplitude > spec.motors[a].maxDeg {
          failed := true;
          return false;
        }
      } else {
        for p := 0 to |spec.waypoints|
          invariant View() == old(View()).(reference := q)
          invariant forall k, j :: 0 <= k < p && 0 <= j < 8 ==>
            spec.motors[j].minDeg <= q[j] + spec.waypoints[k][j] <= spec.motors[j].maxDeg
        {
          for i := 0 to 8
            invariant View() == old(View()).(reference := q)
            invariant forall j :: 0 <= j < i ==> spec.motors[j].minDeg <= q[j] + spec.waypoints[p][j] <= spec.motors[j].maxDeg
          {
            if q[i] + spec.waypoints[p][i] < spec.motors[i].minDeg || q[i] + spec.waypoints[p][i] > spec.motors[i].maxDeg {
              failed := true;
              return false;
            }
          }
        }
      }
      ready := true;
      return true;
    }

    method CheckSpeed(x: Sample, i: nat) returns (ok: bool)
      requires i < 8 && |spec.motors| == 8 && (x.handling ==> spec.handling.Some?)
      modifies `failed, `speedSince
      ensures (View(), ok) == SpeedChecked(spec, old(View()), x, i)
    {
      if x.handling && Abs(x.states[i].velocity) > spec.motors[i].speed {
        if speedSince[i] == 0 { speedSince := speedSince[i := x.now]; }
        assert speedSince == speedSince[i := speedSince[i]];
        if x.now >= speedSince[i] + spec.handling.value.speedPersistenceNs { failed := true; return false; }
      } else {
        speedSince := speedSince[i := 0];
      }
      return true;
    }

    method CheckTracking(x: Sample, i: nat) returns (ok: bool)
      requires i < 8 && |spec.motors| == 8
      modifies `failed, `errorSince
      ensures (View(), ok) == TrackingChecked(spec, old(View()), x, i)
    {
      if Abs(x.states[i].position - x.target[i]) > spec.motors[i].tracking {
        if errorSince[i] == 0 { errorSince := errorSince[i := x.now]; }
        assert errorSince == errorSince[i := errorSince[i]];
        if x.now >= errorSince[i] + spec.trackingTimeoutNs { failed := true; return false; }
      } else {
        errorSince := errorSince[i := 0];
      }
      return true;
    }

    /** The loop body: motor i's checks and timers. */
    method CheckMotor(x: Sample, i: nat) returns (ok: bool)
      requires i < 8 && |spec.motors| == 8 && (x.handling ==> spec.handling.Some?)
      modifies this
      ensures (View(), ok) == MotorChecked(spec, old(View()), x, i)
    {
      hide PostureOk, StampOk, StatusOk, SpeedLimit, SpeedChecked, TrackingChecked;
      var s := x.states[i];
      if !StampOk(spec, s.stampNs, lastSource[i], x.now) { failed := true; return false; }
      lastSource := lastSource[i := s.stampNs];
      if !PostureOk(spec, spec.motors[i], s, x.target[i], reference[i]) { failed := true; return false; }
      if Abs(s.velocity) > SpeedLimit(spec, i, x.handling) { failed := true; return false; }
      ok := CheckSpeed(x, i);
      if !ok { return; }
      if !StatusOk(spec, s.status, x.enabled) { failed := true; return false; }
      ok := CheckTracking(x, i);
    }

    method Check(x: Sample) returns (ok: bool)
      requires |spec.motors| == 8
      modifies this
      ensures (View(), ok) == Checked(spec, old(View()), x)
    {
      hide MotorChecked;
      if failed || !ready || x.now <= lastNow { failed := true; return false; }
      lastNow := x.now;
      if x.handling && (!x.enabled || spec.handling == None || x.target != reference) { failed := true; return false; }
      for i := 0 to 8
        invariant CheckedFrom(spec, View(), x, i) == Checked(spec, old(View()), x)
      {
        var next := CheckMotor(x, i);
        if !next { return false; }
      }
      return true;
    }
  }

  // ----- a call passes exactly when every motor does

  /** The clocks of motors below i have been advanced, the others not yet. */
  ghost predicate Midway(spec: AutoSpec, before: Guard, g: Guard, x: Sample, i: nat)
    requires i <= 8 && |spec.motors| == 8
  {
    && g.ready && !g.failed && g.reference == before.reference && g.lastNow == x.now
    && (forall j :: 0 <= j < i ==> g.lastSource[j] == x.states[j].stampNs)
    && (forall j :: 0 <= j < i ==> g.errorSince[j] == NextClock(before.errorSince[j], x.now, Straying(spec, x, j)))
    && (forall j :: 0 <= j < i ==> g.speedSince[j] == NextClock(before.speedSince[j], x.now, Hurrying(spec, x, j)))
    && (forall j :: i <= j < 8 ==>
          g.lastSource[j] == before.lastSource[j] && g.errorSince[j] == before.errorSince[j] && g.speedSince[j] == before.speedSince[j])
  }

  lemma MotorCheckedPasses(spec: AutoSpec, before: Guard, g: Guard, x: Sample, i: nat)
    requires i < 8 && |spec.motors| == 8 && (x.handling ==> spec.handling.Some?) && Midway(spec, before, g, x, i)
    ensures MotorChecked(spec, g, x, i).1 <==> MotorOk(spec, before, x, i)
    ensures MotorChecked(spec, g, x, i).1 ==> Midway(spec, before, MotorChecked(spec, g, x, i).0, x, i + 1)
    ensures !MotorChecked(spec, g, x, i).1 ==> MotorChecked(spec, g, x, i).0.failed
  {
    hide PostureOk, StampOk, StatusOk, SpeedLimit, Overdue, NextClock, Straying, Hurrying;
  }

  lemma {:induction false} CheckedFromPasses(spec: AutoSpec, before: Guard, g: Guard, x: Sample, i: nat)
    requires i <= 8 && |spec.motors| == 8 && (x.handling ==> spec.handling.Some?) && Midway(spec, before, g, x, i)
    ensures CheckedFrom(spec, g, x, i).1 <==> forall j :: i <= j < 8 ==> MotorOk(spec, before, x, j)
    ensures CheckedFrom(spec, g, x, i).1 ==> Midway(spec, before, CheckedFrom(spec, g, x, i).0, x, 8)
    ensures !CheckedFrom(spec, g, x, i).1 ==> CheckedFrom(spec, g, x, i).0.failed
    decreases 8 - i
  {
    hide MotorChecked, MotorOk, Midway;
    if i < 8 {
      MotorCheckedPasses(spec, before, g, x, i);
      if MotorChecked(spec, g, x, i).1 { CheckedFromPasses(spec, before, MotorChecked(spec, g, x, i).0, x, i + 1); }
    }
  }

  /** A call passes exactly when the context and every motor pass against the guard before it, and
      then every clock has advanced; a call that does not pass latches the failure. */
  lemma CheckedPasses(spec: AutoSpec, g: Guard, x: Sample)
    requires |spec.motors| == 8
    ensures Checked(spec, g, x).1 <==> Passes(spec, g, x)
    ensures Checked(spec, g, x).0 == Passed(spec, g, x) || !Checked(spec, g, x).1
    ensures !Checked(spec, g, x).1 <==> Checked(spec, g, x).0.failed
  {
    hide MotorOk, NextClock, Straying, Hurrying, MotorChecked, CheckedFrom;
    if !g.failed && g.ready && ContextOk(spec, g.reference, g.lastNow, x) {
      CheckedFromPasses(spec, g, g.(lastNow := x.now), x, 0);
    }
  }

  // ----- traces

  /** The guard after a run of calls, and the verdict of each. */
  function Run(spec: AutoSpec, g: Guard, trace: seq<Sample>): (r: (Guard, seq<bool>))
    requires |spec.motors| == 8
    ensures |r.1| == |trace|
  {
    if trace == [] then (g, [])
    else
      var (before, verdicts) := Run(spec, g, trace[..|trace| - 1]);
      var (after, ok) := Checked(spec, before, trace[|trace| - 1]);
      (after, verdicts + [ok])
  }

  predicate AllPass(verdicts: seq<bool>) { forall k :: 0 <= k < |verdicts| ==> verdicts[k] }

  /** A guard that has just accepted its reference. */
  predicate Started(g: Guard) {
    g.ready && !g.failed && g.lastNow == 0 && g.lastSource == NO_CLOCKS && g.errorSince == NO_CLOCKS && g.speedSince == NO_CLOCKS
  }

  /** Sample k passes every check that does not involve a timer. */
  ghost predicate InstantAt(spec: AutoSpec, reference: Vec8, trace: seq<Sample>, k: nat)
    requires |spec.motors| == 8 && k < |trace|
  {
    && ContextOk(spec, reference, if k == 0 then 0 else trace[k - 1].now, trace[k])
    && forall i :: 0 <= i < 8 ==> InstantOk(spec, reference, StampBefore(trace, k, i), trace[k], i)
  }

  /** The stamp motor i showed one sample earlier. */
  function StampBefore(trace: seq<Sample>, k: nat, i: nat): nat
    requires k <= |trace| && i < 8
  {
    if k == 0 then 0 else trace[k - 1].states[i].stampNs
  }

  ghost predicate Instantaneous(spec: AutoSpec, reference: Vec8, trace: seq<Sample>)
    requires |spec.motors| == 8
  {
    forall k :: 0 <= k < |trace| ==> InstantAt(spec, reference, trace, k)
  }

  function ErrorTrace(spec: AutoSpec, trace: seq<Sample>, i: nat): (r: seq<Reading>)
    requires |spec.motors| == 8 && i < 8
    ensures |r| == |trace|
  {
    seq(|trace|, k requires 0 <= k < |trace| => Reading(trace[k].now, Straying(spec, trace[k], i)))
  }

  function SpeedTrace(spec: AutoSpec, trace: seq<Sample>, i: nat): (r: seq<Reading>)
    requires |spec.motors| == 8 && i < 8
    ensures |r| == |trace|
  {
    seq(|trace|, k requires 0 <= k < |trace| => Reading(trace[k].now, Hurrying(spec, trace[k], i)))
  }

  function ToClock(since: Option<nat>): nat { if since.Some? then since.value else 0 }

  /** At sample k motor i has strayed, or hurried under handling, for too long. */
  ghost predicate Overstayed(spec: AutoSpec, trace: seq<Sample>, k: nat, i: nat)
    requires |spec.motors| == 8 && i < 8
  {
    || Persisted(ErrorTrace(spec, trace, i), k, spec.trackingTimeoutNs)
    || (spec.handling.Some? && Persisted(SpeedTrace(spec, trace, i), k, spec.handling.value.speedPersistenceNs))
  }

  ghost predicate Synchronised(spec: AutoSpec, reference: Vec8, g: Guard, trace: seq<Sample>)
    requires |spec.motors| == 8
  {
    && g.ready && !g.failed && g.reference == reference
    && g.lastNow == (if trace == [] then 0 else trace[|trace| - 1].now)
    && forall i :: 0 <= i < 8 ==>
      && g.lastSource[i] == StampBefore(trace, |trace|, i)
      && g.errorSince[i] == ToClock(Timer(ErrorTrace(spec, trace, i)))
      && g.speedSince[i] == ToClock(Timer(SpeedTrace(spec, trace, i)))
  }

  lemma InstantaneousFront(spec: AutoSpec, reference: Vec8, trace: seq<Sample>)
    requires |spec.motors| == 8 && Instantaneous(spec, reference, trace) && trace != []
    ensures Instantaneous(spec, reference, trace[..|trace| - 1])
  {
    var front := trace[..|trace| - 1];
    forall k | 0 <= k < |front| ensures InstantAt(spec, reference, front, k) {
      assert InstantAt(spec, reference, trace, k);
      assert forall i :: 0 <= i < 8 ==> StampBefore(front, k, i) == StampBefore(trace, k, i);
    }
  }

  lemma {:induction false} TimesIncrease(spec: AutoSpec, reference: Vec8, trace: seq<Sample>)
    requires |spec.motors| == 8 && Instantaneous(spec, reference, trace)
    ensures forall i, j :: 0 <= i < j < |trace| ==> trace[i].now < trace[j].now
    ensures forall i :: 0 <= i < |trace| ==> trace[i].now > 0
  {
    if trace != [] {
      InstantaneousFront(spec, reference, trace);
      TimesIncrease(spec, reference, trace[..|trace| - 1]);
      assert InstantAt(spec, reference, trace, |trace| - 1);
    }
  }

  /** One timer step of the guard is one step of the declarative timer. */
  lemma ClockIsTimer(since: Option<nat>, r: Reading, timeout: nat)
    requires r.now > 0 && (since.Some? ==> since.value > 0)
    ensures NextClock(ToClock(since), r.now, r.bad) == ToClock(Tick(since, r))
    ensures Overdue(ToClock(since), r.now, r.bad, timeout) <==> Expired(Tick(since, r), r.now, timeout)
  {}

  lemma TimerPositive(trace: seq<Reading>)
    requires forall k :: 0 <= k < |trace| ==> trace[k].now > 0
    ensures Timer(trace).Some? ==> Timer(trace).value > 0
  {}

  lemma LastReading(readings: seq<Reading>)
    requires readings != []
    ensures Timer(readings) == Tick(Timer(readings[..|readings| - 1]), readings[|readings| - 1])
  {}

  /** The online clock against the blocks of the trace it has seen. */
  lemma ClockVerdict(readings: seq<Reading>, timeout: nat)
    requires readings != [] && Increasing(readings) && forall k :: 0 <= k < |readings| ==> readings[k].now > 0
    ensures var n := |readings| - 1;
            var since, r := ToClock(Timer(readings[..n])), readings[n];
      && NextClock(since, r.now, r.bad) == ToClock(Timer(readings))
      && (Overdue(since, r.now, r.bad, timeout) <==> Persisted(readings, n, timeout))
  {
    hide Persisted, Increasing, Timer, Tick, Expired, Overdue, NextClock, ToClock;
    var n := |readings| - 1;
    assert readings[..n + 1] == readings;
    TimerPositive(readings[..n]);
    ClockIsTimer(Timer(readings[..n]), readings[n], timeout);
    LastReading(readings);
    ExpiredIffPersisted(readings, n, timeout);
  }

  /** What motor i contributes to the last check of a synchronised run. */
  lemma MotorVerdict(spec: AutoSpec, reference: Vec8, g: Guard, trace: seq<Sample>, i: nat)
    requires |spec.motors| == 8 && i < 8 && trace != [] && Instantaneous(spec, reference, trace)
    requires Synchronised(spec, reference, g, trace[..|trace| - 1])
    ensures trace[|trace| - 1].handling ==> spec.handling.Some?
    ensures var n, x := |trace| - 1, trace[|trace| - 1];
      && (MotorOk(spec, g, x, i) <==> !Overstayed(spec, trace, n, i))
      && NextClock(g.errorSince[i], x.now, Straying(spec, x, i)) == ToClock(Timer(ErrorTrace(spec, trace, i)))
      && NextClock(g.speedSince[i], x.now, Hurrying(spec, x, i)) == ToClock(Timer(SpeedTrace(spec, trace, i)))
  {
    hide PostureOk, StampOk, StatusOk, Persisted, Increasing, Timer;
    var n, x := |trace| - 1, trace[|trace| - 1];
    var errors, speeds := ErrorTrace(spec, trace, i), SpeedTrace(spec, trace, i);
    assert InstantAt(spec, reference, trace, n);
    TraceClocked(spec, reference, trace, i);
    assert errors[..n] == ErrorTrace(spec, trace[..n], i) && speeds[..n] == SpeedTrace(spec, trace[..n], i);
    ClockVerdict(errors, spec.trackingTimeoutNs);
    ClockVerdict(speeds, if spec.handling.Some? then spec.handling.value.speedPersistenceNs else 0);
    assert StampBefore(trace[..n], n, i) == StampBefore(trace, n, i);
  }

  lemma TraceClocked(spec: AutoSpec, reference: Vec8, trace: seq<Sample>, i: nat)
    requires |spec.motors| == 8 && i < 8 && Instantaneous(spec, reference, trace)
    ensures Increasing(ErrorTrace(spec, trace, i)) && Increasing(SpeedTrace(spec, trace, i))
    ensures forall k :: 0 <= k < |trace| ==> ErrorTrace(spec, trace, i)[k].now > 0 && SpeedTrace(spec, trace, i)[k].now > 0
  {
    TimesIncrease(spec, reference, trace);
  }

  /** No motor has overstayed at any sample so far. */
  ghost predicate Patient(spec: AutoSpec, trace: seq<Sample>)
    requires |spec.motors| == 8
  {
    forall k, i :: 0 <= k < |trace| && 0 <= i < 8 ==> !Overstayed(spec, trace, k, i)
  }

  lemma PatientGrows(spec: AutoSpec, trace: seq<Sample>)
    requires |spec.motors| == 8 && trace != []
    ensures var n := |trace| - 1;
      Patient(spec, trace) <==> Patient(spec, trace[..n]) && forall i :: 0 <= i < 8 ==> !Overstayed(spec, trace, n, i)
  {
    var n := |trace| - 1;
    forall k, i | 0 <= k < n && 0 <= i < 8
      ensures Overstayed(spec, trace, k, i) <==> Overstayed(spec, trace[..n], k, i)
    {
      PersistedPrefix(ErrorTrace(spec, trace, i), ErrorTrace(spec, trace[..n], i), k, spec.trackingTimeoutNs);
      if spec.handling.Some? {
        PersistedPrefix(SpeedTrace(spec, trace, i), SpeedTrace(spec, trace[..n], i), k, spec.handling.value.speedPersistenceNs);
      }
    }
  }

  lemma {:induction false} PassesWhilePatient(spec: AutoSpec, g: Guard, trace: seq<Sample>)
    requires |spec.motors| == 8 && Started(g) && Instantaneous(spec, g.reference, trace)
    ensures AllPass(Run(spec, g, trace).1) <==> Patient(spec, trace)
    ensures AllPass(Run(spec, g, trace).1) ==> Synchronised(spec, g.reference, Run(spec, g, trace).0, trace)
  {
    hide Checked, Passes, Patient, InstantAt, Overstayed;
    if trace == [] {
      NothingSeen(spec, g);
    } else {
      var n, x := |trace| - 1, trace[|trace| - 1];
      InstantaneousFront(spec, g.reference, trace);
      PassesWhilePatient(spec, g, trace[..n]);
      PatientGrows(spec, trace);
      var (before, verdicts) := Run(spec, g, trace[..n]);
      CheckedPasses(spec, before, x);
      AllPassGrows(verdicts, Checked(spec, before, x).1);
      if AllPass(verdicts) {
        LastCheck(spec, g.reference, before, trace);
      }
    }
  }

  lemma AllPassGrows(verdicts: seq<bool>, ok: bool)
    ensures AllPass(verdicts + [ok]) <==> AllPass(verdicts) && ok
  {
    var longer := verdicts + [ok];
    assert longer[|verdicts|] == ok;
    if AllPass(longer) { assert forall k :: 0 <= k < |verdicts| ==> longer[k] == verdicts[k]; }
  }

  lemma NothingSeen(spec: AutoSpec, g: Guard)
    requires |spec.motors| == 8 && Started(g)
    ensures Patient(spec, []) && Synchronised(spec, g.reference, g, [])
  {}

  lemma {:induction false} VerdictsOfPrefix(spec: AutoSpec, g: Guard, trace: seq<Sample>, k: nat)
    requires |spec.motors| == 8 && k <= |trace|
    ensures Run(spec, g, trace[..k]).1 == Run(spec, g, trace).1[..k]
  {
    hide Checked;
    if k == |trace| {
      assert trace[..k] == trace;
    } else {
      var n := |trace| - 1;
      VerdictsOfPrefix(spec, g, trace[..n], k);
      assert trace[..n][..k] == trace[..k];
    }
  }

  /** A failed guard stays failed. */
  lemma {:induction false} LatchHolds(spec: AutoSpec, g: Guard, trace: seq<Sample>, k: nat)
    requires |spec.motors| == 8 && k < |trace| && !Run(spec, g, trace).1[k]
    ensures Run(spec, g, trace).0.failed
  {
    hide Checked, Passes, Passed;
    var n := |trace| - 1;
    CheckedPasses(spec, Run(spec, g, trace[..n]).0, trace[n]);
    if k < n {
      LatchHolds(spec, g, trace[..n], k);
      FailedNeverPasses(spec, Run(spec, g, trace[..n]).0, trace[n]);
    }
  }

  /** Once a check has failed, the guard never passes again: the verdict of every later call is
      false, and the check fails for whatever the motors, the target and the clock may be. */
  lemma FailureIsFinal(spec: AutoSpec, g: Guard, trace: seq<Sample>, k: nat, x: Sample)
    requires |spec.motors| == 8 && k < |trace| && !Run(spec, g, trace).1[k]
    ensures forall m :: k <= m < |trace| ==> !Run(spec, g, trace).1[m]
    ensures !Passes(spec, Run(spec, g, trace).0, x)
  {
    LatchHolds(spec, g, trace, k);
    forall m | k < m < |trace| ensures !Run(spec, g, trace).1[m] {
      var front := trace[..m];
      VerdictsOfPrefix(spec, g, trace, m);
      VerdictsOfPrefix(spec, g, trace, m + 1);
      LatchHolds(spec, g, front, k);
      assert trace[..m + 1][..m] == front;
      FailedNeverPasses(spec, Run(spec, g, front).0, trace[m]);
      hide Checked;
      assert Run(spec, g, trace[..m + 1]).1[m] == Checked(spec, Run(spec, g, front).0, trace[m]).1;
    }
  }

  lemma FailedNeverPasses(spec: AutoSpec, g: Guard, x: Sample)
    requires |spec.motors| == 8 && g.failed
    ensures !Checked(spec, g, x).1 && Checked(spec, g, x).0 == g
  {}

  /** On a run whose samples pass every instantaneous check, call k passes exactly when up to it no
      motor has had an unbroken block of tracking violations, or of speed violations under handling,
      that spans its timeout: the guard faults first at the first sample that completes a block. */
  lemma FaultsExactlyWhenPersistent(spec: AutoSpec, g: Guard, trace: seq<Sample>, k: nat)
    requires |spec.motors| == 8 && Started(g) && Instantaneous(spec, g.reference, trace) && k < |trace|
    ensures Run(spec, g, trace).1[k] <==> Patient(spec, trace[..k + 1])
  {
    var seen := trace[..k + 1];
    InstantaneousPrefix(spec, g.reference, trace, k + 1);
    PassesWhilePatient(spec, g, seen);
    VerdictsOfPrefix(spec, g, trace, k + 1);
    hide Checked, Passes, Patient, Instantaneous, Started;
    var verdicts := Run(spec, g, seen).1;
    assert verdicts[k] == Run(spec, g, trace).1[k];
    if verdicts[k] {
      forall j | 0 <= j < k ensures verdicts[j] {
        if !verdicts[j] { FailureIsFinal(spec, g, seen, j, seen[k]); }
      }
    }
  }

  lemma InstantaneousPrefix(spec: AutoSpec, reference: Vec8, trace: seq<Sample>, n: nat)
    requires |spec.motors| == 8 && Instantaneous(spec, reference, trace) && n <= |trace|
    ensures Instantaneous(spec, reference, trace[..n])
  {
    var front := trace[..n];
    forall k | 0 <= k < n ensures InstantAt(spec, reference, front, k) {
      assert InstantAt(spec, reference, trace, k);
      assert forall i :: 0 <= i < 8 ==> StampBefore(front, k, i) == StampBefore(trace, k, i);
    }
  }

  lemma LastCheck(spec: AutoSpec, reference: Vec8, g: Guard, trace: seq<Sample>)
    requires |spec.motors| == 8 && trace != [] && Instantaneous(spec, reference, trace)
    requires Synchronised(spec, reference, g, trace[..|trace| - 1])
    ensures var n, x := |trace| - 1, trace[|trace| - 1];
      && (Passes(spec, g, x) <==> forall i :: 0 <= i < 8 ==> !Overstayed(spec, trace, n, i))
      && Synchronised(spec, reference, Passed(spec, g, x), trace)
  {
    hide MotorOk, Overstayed, NextClock, Timer;
    var n, x := |trace| - 1, trace[|trace| - 1];
    assert InstantAt(spec, reference, trace, n);
    forall i | 0 <= i < 8
      ensures x.handling ==> spec.handling.Some?
      ensures MotorOk(spec, g, x, i) <==> !Overstayed(spec, trace, n, i)
      ensures NextClock(g.errorSince[i], x.now, Straying(spec, x, i)) == ToClock(Timer(ErrorTrace(spec, trace, i)))
      ensures NextClock(g.speedSince[i], x.now, Hurrying(spec, x, i)) == ToClock(Timer(SpeedTrace(spec, trace, i)))
    {
      MotorVerdict(spec, reference, g, trace, i);
    }
  }

  // ----- one call, in plain terms

  /** What a call demands of motor i apart from its timers: a fresh stamp, position and command in range and
      near the reference, torque, temperatures and end stops, the speed limit that applies, and the
      enabled status, or before enabling also the disabled one. */
  predicate MotorInOrder(spec: AutoSpec, reference: Vec8, previous: nat, x: Sample, i: nat)
    requires i < 8 && |spec.motors| == 8 && (x.handling ==> spec.handling.Some?)
  {
    var m, s, target := spec.motors[i], x.states[i], x.target[i];
    var limit := if x.handling then spec.handling.value.hardSpeed[i] else m.speed;
    && 0 < s.stampNs && previous <= s.stampNs <= x.now && x.now - s.stampNs <= spec.stateTimeoutNs
    && m.minDeg <= s.position <= m.maxDeg && m.minDeg <= target <= m.maxDeg
    && -m.excursion <= s.position - reference[i] <= m.excursion && -m.excursion <= target - reference[i] <= m.excursion
    && -m.torque <= s.torque <= m.torque && s.mosTemperature <= spec.temperature && s.rotorTemperature <= spec.temperature
    && !s.endpoint && -limit <= s.velocity <= limit
    && (s.status == spec.enabledStatus || (!x.enabled && s.status == spec.disabledStatus))
  }

  /** A call passes exactly if the guard is armed and has not failed, its clock advances, handling is only
      claimed of an enabled arm that is commanded to stand at the reference, and for every motor all is
      in order, it is not off its command for the tracking timeout, and not fast under handling for the
      persistence time, counted from when its clock was started. */
  lemma CheckPassesExactly(spec: AutoSpec, g: Guard, x: Sample)
    requires |spec.motors| == 8
    ensures Checked(spec, g, x).1 <==>
      && g.ready && !g.failed && x.now > g.lastNow
      && (x.handling ==> x.enabled && spec.handling.Some? && x.target == g.reference)
      && forall i :: 0 <= i < 8 ==>
           MotorInOrder(spec, g.reference, g.lastSource[i], x, i) && !OffTooLong(spec, g, x, i) && !FastTooLong(spec, g, x, i)
  {
    CheckedPasses(spec, g, x);
    if ContextOk(spec, g.reference, g.lastNow, x) {
      forall i | 0 <= i < 8
        ensures MotorOk(spec, g, x, i) <==>
          MotorInOrder(spec, g.reference, g.lastSource[i], x, i) && !OffTooLong(spec, g, x, i) && !FastTooLong(spec, g, x, i)
      {
        MotorExactly(spec, g, x, i);
      }
    }
    hide Checked, MotorOk, MotorInOrder, OffTooLong, FastTooLong;
  }

  predicate OffTooLong(spec: AutoSpec, g: Guard, x: Sample, i: nat)
    requires i < 8 && |spec.motors| == 8
  {
    var apart, m := x.states[i].position - x.target[i], spec.motors[i];
    && (apart > m.tracking || apart < -m.tracking)
    && x.now >= (if g.errorSince[i] > 0 then g.errorSince[i] else x.now) + spec.trackingTimeoutNs
  }

  predicate FastTooLong(spec: AutoSpec, g: Guard, x: Sample, i: nat)
    requires i < 8 && |spec.motors| == 8 && (x.handling ==> spec.handling.Some?)
  {
    && x.handling && (x.states[i].velocity > spec.motors[i].speed || x.states[i].velocity < -spec.motors[i].speed)
    && x.now >= (if g.speedSince[i] > 0 then g.speedSince[i] else x.now) + spec.handling.value.speedPersistenceNs
  }

  lemma MotorExactly(spec: AutoSpec, g: Guard, x: Sample, i: nat)
    requires i < 8 && |spec.motors| == 8 && (x.handling ==> spec.handling.Some?)
    ensures MotorOk(spec, g, x, i) <==>
      MotorInOrder(spec, g.reference, g.lastSource[i], x, i) && !OffTooLong(spec, g, x, i) && !FastTooLong(spec, g, x, i)
  {}
}
