/** A paired session that keeps every deadline of its own loop and is rejected by the verifier. */
module LateSweep {
  import opened Common
  import opened AutoSpec
  import opened Trajectory
  import opened Sweep
  import opened ControlLoop
  import AutoGuard
  import PairedSweep
  import PairedProtocol
  import SettlingGate

  const MOTOR := AutoMotor(-10.0, 10.0, 5.0, 100.0, 1.0, 5.0, 100.0, 200.0, 1.0)

  /** One control step a second, a state timeout of one and a half seconds, sweeps of half a second. */
  const SPEC := AutoSpec(
    [], None, [MOTOR, MOTOR, MOTOR, MOTOR, MOTOR, MOTOR, MOTOR, MOTOR],
    1.0, 0.1, 0.02, 100.0, 1.0, 1000.0, 100000.0, 1, 1, 1, 0, 100, 1_500_000_000, 1, 1, 3)

  const POLICY := PairedProtocol.Policy(0.02, 0.1, 1, 100.0, None)

  const ZERO: Vec8 := [0.0, 0.0, 0.0, 0.0, 0.0, 0.0, 0.0, 0.0]

  const ARMED := AutoGuard.UNSET.(ready := true, reference := ZERO)

  const START := 1_000_000_000

  lemma SpecIsValid()
    ensures Valid(SPEC, ZERO) && SPEC.SweepSeconds() == 0.5 && PolicyOf(POLICY, SPEC) && PeriodNs(SPEC) == 1_000_000_000
  {
    assert SPEC.SegmentFits(1.0);
  }

  // ----- one tick with calm motors

  /** Every motor rests at the reference, enabled, heard just now. */
  function Calm(now: nat): SettlingGate.Feedback {
    var m := Resting(now);
    [m, m, m, m, m, m, m, m]
  }

  function Resting(now: nat): SettlingGate.MotorSample {
    SettlingGate.MotorSample(now, 0.0, 0.0, 0.0, 1, 20, 20, false)
  }

  function At(now: nat, advance: bool): Tick { Tick(now, advance, Calm(now), now, Works) }

  /** The guard is armed and has seen nothing later than `now`. */
  predicate Watchful(g: AutoGuard.Guard, now: nat) {
    Armed(g, ZERO) && g.lastNow < now && forall i :: 0 <= i < 8 ==> g.lastSource[i] <= now
  }

  lemma CalmPasses(g: AutoGuard.Guard, s: PairedSweep.State, now: nat)
    requires Watchful(g, now)
    ensures var r := AutoGuard.Checked(SPEC, g, Shown(SPEC, s, At(now, false), ZERO));
      r.1 && Armed(r.0, ZERO) && r.0.lastNow == now && forall i :: 0 <= i < 8 ==> r.0.lastSource[i] == now
  {
    hide AutoGuard.Checked;
    var x := Shown(SPEC, s, At(now, false), ZERO);
    assert SPEC.handling == None;
    AutoGuard.CheckedPasses(SPEC, g, x);
    forall i | 0 <= i < 8 ensures AutoGuard.MotorOk(SPEC, g, x, i) {
      assert SPEC.motors[i] == MOTOR && x.states[i] == Resting(now) && x.target[i] == 0.0;
    }
  }

  /** A tick in time that changes the session from s to n, in a phase whose target is the reference. */
  lemma CalmTick(x: Loop, now: nat, advance: bool, n: PairedSweep.State)
    requires Valid(SPEC, ZERO) && x.Live() && Watchful(x.guard, now) && START <= now <= x.deadline + SPEC.stateTimeoutNs
    requires x.session.state.phase <= 5
    requires PairedSweep.Step(SweepConfig(SPEC), x.session.state, Elapsed(START, now), advance, false) == (n, None)
    requires n.phase < 5 && (n.Waiting() || n.start == Elapsed(START, now)) && n.start <= Elapsed(START, now)
    ensures var y := TickStep(SPEC, START, ZERO, x, At(now, advance));
      && y.Live() && y.session.state == n && y.deadline == x.deadline + 1_000_000_000
      && Armed(y.guard, ZERO) && y.guard.lastNow == now && forall i :: 0 <= i < 8 ==> y.guard.lastSource[i] == now
  {
    hide Valid, Sent, PairedSweep.Step, SweepConfig, Watchful, Elapsed;
    assert SPEC.handling == None;
    var i := PairedSweep.Input(Elapsed(START, now), advance, false);
    var session := PairedSweep.Continue(SweepConfig(SPEC), x.session, i);
    var kept := if session.log == x.session.log then x.gate else x.gate.(since := 0, last := 0);
    CalmSent(x.(session := session, gate := kept), now, advance, n);
  }

  /** The second half of such a tick. */
  lemma CalmSent(x: Loop, now: nat, advance: bool, n: PairedSweep.State)
    requires Valid(SPEC, ZERO) && x.fault == None && Watchful(x.guard, now) && x.session.state == n
    requires n.phase < 5 && (n.Waiting() || n.start == Elapsed(START, now)) && n.start <= Elapsed(START, now)
    ensures var y := Sent(SPEC, ZERO, x, At(now, advance), Elapsed(START, now));
      && y.fault == None && y.session == x.session && y.deadline == x.deadline + 1_000_000_000
      && Armed(y.guard, ZERO) && y.guard.lastNow == now && forall i :: 0 <= i < 8 ==> y.guard.lastSource[i] == now
  {
    hide Valid, AutoGuard.Checked, Commanded, SweepConfig, Watchful, Elapsed;
    SpecIsValid();
    CommandedTargets(SPEC, ZERO, n, Elapsed(START, now));
    CalmPasses(x.guard, n, now);
    assert Shown(SPEC, n, At(now, advance), ZERO) == Shown(SPEC, n, At(now, false), ZERO);
  }

  /** The last tick ends the session. */
  lemma LastTick(x: Loop, now: nat, n: PairedSweep.State)
    requires Valid(SPEC, ZERO) && x.Live() && x.session.state.phase <= 5 && now <= x.deadline + SPEC.stateTimeoutNs
    requires PairedSweep.Step(SweepConfig(SPEC), x.session.state, Elapsed(START, now), false, false) == (n, None) && n.phase == 5
    ensures var y := TickStep(SPEC, START, ZERO, x, At(now, false));
      y.fault == None && y.session.fault == None && y.session.state == n
  {
    hide Valid, SweepConfig, Elapsed;
  }

  // ----- the session

  /** The baseline sweep ends at half a second; the second tick comes as late as the loop allows. */
  const TICKS: seq<Tick> := [
    At(1_000_000_000, false), At(3_500_000_000, false), At(4_000_000_000, true),
    At(5_000_000_000, false), At(6_000_000_000, true), At(7_000_000_000, false)]

  function After(n: nat): Loop
    requires Valid(SPEC, ZERO) && n <= 6
  {
    Run(SPEC, START, ZERO, ARMED, TICKS[..n])
  }

  lemma AfterStep(n: nat)
    requires Valid(SPEC, ZERO) && n < 6
    ensures After(n + 1) == TickStep(SPEC, START, ZERO, After(n), TICKS[n])
  {
    assert TICKS[..n + 1][..n] == TICKS[..n];
  }

  /** The loop has done n ticks, the last of them at `now`. */
  predicate Stands(n: nat, s: PairedSweep.State, now: nat)
    requires Valid(SPEC, ZERO) && n <= 6
  {
    var x := After(n);
    && x.Live() && x.session.state == s && x.deadline == START + n * 1_000_000_000
    && Armed(x.guard, ZERO) && x.guard.lastNow <= now && forall i :: 0 <= i < 8 ==> x.guard.lastSource[i] <= now
  }

  lemma Advances(n: nat, s: PairedSweep.State, before: nat, next: PairedSweep.State)
    requires Valid(SPEC, ZERO) && n < 6 && Stands(n, s, before) && s.phase < 5
    requires TICKS[n] == At(TICKS[n].now, TICKS[n].advance) && START <= TICKS[n].now && before < TICKS[n].now
    requires TICKS[n].now <= START + n * 1_000_000_000 + 1_500_000_000
    requires PairedSweep.Step(SweepConfig(SPEC), s, Elapsed(START, TICKS[n].now), TICKS[n].advance, false) == (next, None)
    requires next.phase < 5 && (next.Waiting() || next.start == Elapsed(START, TICKS[n].now))
    requires next.start <= Elapsed(START, TICKS[n].now)
    ensures Stands(n + 1, next, TICKS[n].now)
  {
    hide Valid, TickStep, Run, SweepConfig, Elapsed;
    AfterStep(n);
    CalmTick(After(n), TICKS[n].now, TICKS[n].advance, next);
  }

  lemma Config()
    requires Valid(SPEC, ZERO)
    ensures SweepConfig(SPEC) == PairedSweep.Config(0.5, 100.0, 0.0, 0.0)
  {
    SpecIsValid();
  }

  lemma Times()
    ensures Elapsed(START, 1_000_000_000) == 0.0 && Elapsed(START, 3_500_000_000) == 2.5 && Elapsed(START, 4_000_000_000) == 3.0
    ensures Elapsed(START, 5_000_000_000) == 4.0 && Elapsed(START, 6_000_000_000) == 5.0 && Elapsed(START, 7_000_000_000) == 6.0
  {}

  /** The six steps of the phase machine. */
  lemma Steps(c: PairedSweep.Config)
    requires c == PairedSweep.Config(0.5, 100.0, 0.0, 0.0)
    ensures PairedSweep.Step(c, PairedSweep.INITIAL, 0.0, false, false) == (PairedSweep.State(0.0, 0.0, false, 0), None)
    ensures PairedSweep.Step(c, PairedSweep.State(0.0, 0.0, false, 0), 2.5, false, false) == (PairedSweep.State(2.5, 2.5, false, 1), None)
    ensures PairedSweep.Step(c, PairedSweep.State(2.5, 2.5, false, 1), 3.0, true, false) == (PairedSweep.State(3.0, 3.0, false, 2), None)
    ensures PairedSweep.Step(c, PairedSweep.State(3.0, 3.0, false, 2), 4.0, false, false) == (PairedSweep.State(4.0, 4.0, false, 3), None)
    ensures PairedSweep.Step(c, PairedSweep.State(4.0, 4.0, false, 3), 5.0, true, false) == (PairedSweep.State(5.0, 5.0, false, 4), None)
    ensures PairedSweep.Step(c, PairedSweep.State(5.0, 5.0, false, 4), 6.0, false, false) == (PairedSweep.State(6.0, 6.0, false, 5), None)
  {}

  lemma NoTicksYet()
    requires Valid(SPEC, ZERO)
    ensures Stands(0, PairedSweep.INITIAL, 0)
  {
    hide Valid;
    assert TICKS[..0] == [];
  }

  lemma FirstHalf()
    requires Valid(SPEC, ZERO)
    ensures Stands(1, PairedSweep.State(0.0, 0.0, false, 0), 1_000_000_000)
    ensures Stands(3, PairedSweep.State(3.0, 3.0, false, 2), 4_000_000_000)
  {
    hide Valid, Stands, SweepConfig, Elapsed, PairedSweep.Step;
    Config();
    Times();
    Steps(SweepConfig(SPEC));
    NoTicksYet();
    Advances(0, PairedSweep.INITIAL, 0, PairedSweep.State(0.0, 0.0, false, 0));
    Advances(1, PairedSweep.State(0.0, 0.0, false, 0), 1_000_000_000, PairedSweep.State(2.5, 2.5, false, 1));
    Advances(2, PairedSweep.State(2.5, 2.5, false, 1), 3_500_000_000, PairedSweep.State(3.0, 3.0, false, 2));
  }

  lemma SecondHalf()
    requires Valid(SPEC, ZERO) && Stands(3, PairedSweep.State(3.0, 3.0, false, 2), 4_000_000_000)
    ensures Stands(5, PairedSweep.State(5.0, 5.0, false, 4), 6_000_000_000)
  {
    hide Valid, Stands, SweepConfig, Elapsed, PairedSweep.Step;
    Config();
    Times();
    Steps(SweepConfig(SPEC));
    Advances(3, PairedSweep.State(3.0, 3.0, false, 2), 4_000_000_000, PairedSweep.State(4.0, 4.0, false, 3));
    Advances(4, PairedSweep.State(4.0, 4.0, false, 3), 5_000_000_000, PairedSweep.State(5.0, 5.0, false, 4));
  }

  lemma End()
    requires Valid(SPEC, ZERO) && Stands(5, PairedSweep.State(5.0, 5.0, false, 4), 6_000_000_000)
    ensures After(6).fault == None && After(6).session.fault == None && After(6).session.state.Complete()
  {
    hide Valid, Run, TickStep, SweepConfig, Elapsed, PairedSweep.Step;
    Config();
    Times();
    Steps(SweepConfig(SPEC));
    AfterStep(5);
    LastTick(After(5), 7_000_000_000, PairedSweep.State(6.0, 6.0, false, 5));
  }

  /** The loop's own deadline check is not enough: here is a validated specification and a session in
      which every tick wakes at or after its deadline and keeps the check, no guard and no device
      objects, the loop completes, and the verifier rejects the report at one state timeout. */
  lemma CompletedLoopIsRejected()
    ensures Valid(SPEC, ZERO) && Armed(ARMED, ZERO) && PolicyOf(POLICY, SPEC) && Clocked(START, TICKS)
    ensures forall k :: 0 <= k < 6 ==> Due(SPEC, START, k) <= TICKS[k].now <= Due(SPEC, START, k) + SPEC.stateTimeoutNs
    ensures var x := Run(SPEC, START, ZERO, ARMED, TICKS);
      && x.fault == None && x.session.state.Complete() && x.session.log != []
      && PairedProtocol.PairedPhases(PairedProtocol.ReportOf(POLICY, x.session), NanoSeconds(SPEC.stateTimeoutNs))
         == Err(PairedProtocol.BadSweep)
  {
    hide Valid, Run, SweepConfig, PairedProtocol.PairedPhases, PairedProtocol.Configures, NoTickOverdue, Stands;
    SpecIsValid();
    FirstHalf();
    SecondHalf();
    End();
    assert TICKS[..6] == TICKS;
    SecondTickIsOverdue();
    CompletedLoopAcceptedExactly(SPEC, START, ZERO, ARMED, TICKS, POLICY, SPEC.stateTimeoutNs);
  }

  lemma SecondTickIsOverdue()
    requires Valid(SPEC, ZERO) && Stands(1, PairedSweep.State(0.0, 0.0, false, 0), 1_000_000_000)
    ensures !NoTickOverdue(SPEC, START, ZERO, ARMED, TICKS, SPEC.stateTimeoutNs)
  {
    hide Valid, Run, SweepConfig, Elapsed;
    Config();
    Times();
    assert NanoSeconds(1_500_000_000) == 1.5;
    assert TickOverdue(SPEC, START, After(1), TICKS[1], SPEC.stateTimeoutNs);
  }
}
