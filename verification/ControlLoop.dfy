/** The paired control loop: each tick feeds the settling gate, steps the paired sweep, resets the
    gate on every announced phase change, has the guard check the resulting target against the
    feedback and commands it. */
module ControlLoop {
  import opened Common
  import opened Quintic
  import opened Gluing
  import opened AutoSpec
  import opened Trajectory
  import PairedSweep
  import PairedProtocol
  import SettlingGate
  import AutoGuard

  /** How the devices behave at a tick: the feedback log or the CAN health and the send may fail. */
  datatype Device = Works | ReadFails | SendFails

  /** One pass of the loop: the time it wakes at, whether the operator acknowledged, the feedback it
      reads and the time at which the guard looks at it. */
  datatype Tick = Tick(now: nat, advance: bool, feedback: SettlingGate.Feedback, checkedAt: nat, device: Device)

  datatype Fault =
    | DeadlineMissed | GateClock | SweepFault(fault: PairedSweep.Fault) | GuardFailed | DeviceFailed

  datatype Command = Command(elapsed: real, target: Vec8)

  /** The loop so far: its objects, the schedule, and what it commanded. */
  datatype Loop = Loop(
    session: PairedSweep.Session, gate: SettlingGate.State, deadline: nat, fault: Option<Fault>,
    commands: seq<Command>, guard: AutoGuard.Guard)
  {
    predicate Live() { fault == None && session.Live() }
  }

  /** What the owner of a paired session is given; the reference passed set_reference. */
  ghost predicate Valid(spec: AutoSpec, reference: Vec8) {
    && spec.Valid() && spec.waypoints == [] && SweepConfig(spec).Valid() && spec.AcceptsReference(reference)
  }

  function SweepConfig(spec: AutoSpec): PairedSweep.Config {
    var timeout := if spec.handling.Some? then NanoSeconds(spec.handling.value.settleTimeoutNs) else 0.0;
    var minimum := if spec.handling.Some? then NanoSeconds(spec.handling.value.settleNs) else 0.0;
    PairedSweep.Config(spec.SweepSeconds(), spec.holdTest, timeout, minimum)
  }

  function PeriodNs(spec: AutoSpec): nat
    requires spec.rateHz > 0
  {
    1_000_000_000 / spec.rateHz
  }

  function Elapsed(startNs: nat, now: nat): real { (now - startNs) as real / 1_000_000_000.0 }

  /** Before the first tick the reference itself has been commanded, and the guard has been armed. */
  function Opening(startNs: nat, reference: Vec8, armed: AutoGuard.Guard): Loop {
    Loop(PairedSweep.OPENING, SettlingGate.INITIAL, startNs, None, [Command(0.0, reference)], armed)
  }

  function Commanded(spec: AutoSpec, reference: Vec8, s: PairedSweep.State, elapsed: real): (t: Vec8)
    requires Valid(spec, reference)
  {
    match spec.Target(reference, elapsed - s.start, s.Waiting())
    case Some(target) => target
    case None => reference
  }

  /** What the guard is shown of a tick: manual handling means a waiting or settling phase. */
  function Shown(spec: AutoSpec, s: PairedSweep.State, tick: Tick, target: Vec8): AutoGuard.Sample {
    AutoGuard.Sample(tick.checkedAt, tick.feedback, target, true, spec.handling.Some? && s.Waiting())
  }

  /** The second half of a tick: guard, devices, command. */
  function Sent(spec: AutoSpec, reference: Vec8, x: Loop, tick: Tick, elapsed: real): (y: Loop)
    requires Valid(spec, reference) && x.session.state.phase <= 5
    ensures y.session == x.session && y.gate == x.gate
  {
    var target := Commanded(spec, reference, x.session.state, elapsed);
    var (guard, ok) := AutoGuard.Checked(spec, x.guard, Shown(spec, x.session.state, tick, target));
    var z := x.(guard := guard);
    if !ok then z.(fault := Some(GuardFailed))
    else
      // A send that fails may still have reached some motors.
      var sent := z.(commands := x.commands + [Command(elapsed, target)]);
      if tick.device == SendFails then sent.(fault := Some(DeviceFailed))
      else sent.(deadline := x.deadline + PeriodNs(spec))
  }

  /** The first half of a tick: deadline, reading, settling gate, phase machine. */
  function Stepped(spec: AutoSpec, startNs: nat, x: Loop, tick: Tick): (y: Loop)
    requires x.session.state.phase <= 5
    ensures y.session.state.phase <= 5
  {
    if tick.now > x.deadline + spec.stateTimeoutNs then x.(fault := Some(DeadlineMissed))
    else if tick.device == ReadFails then x.(fault := Some(DeviceFailed))
    else
      var elapsed := Elapsed(startNs, tick.now);
      var watching := x.session.state.settling && spec.handling.Some?;
      if watching && !SettlingGate.Monotonic(x.gate, tick.now) then x.(fault := Some(GateClock))
      else
        var (gate, stable) := if watching then SettlingGate.Updated(spec.handling.value, x.gate, tick.now, tick.feedback)
                              else (x.gate, false);
        var session := PairedSweep.Continue(SweepConfig(spec), x.session, PairedSweep.Input(elapsed, tick.advance, stable));
        if session.fault.Some? then x.(session := session, gate := gate, fault := Some(SweepFault(session.fault.value)))
        else
          var kept := if session.log == x.session.log then gate else gate.(since := 0, last := 0);
          x.(session := session, gate := kept)
  }

  function TickStep(spec: AutoSpec, startNs: nat, reference: Vec8, x: Loop, tick: Tick): (y: Loop)
    requires Valid(spec, reference) && x.session.state.phase <= 5
    ensures y.session.state.phase <= 5
  {
    if !x.Live() then x
    else
      var y := Stepped(spec, startNs, x, tick);
      if y.fault.Some? || y.session.state.Complete() then y
      else Sent(spec, reference, y, tick, Elapsed(startNs, tick.now))
  }

  function Run(spec: AutoSpec, startNs: nat, reference: Vec8, armed: AutoGuard.Guard, ticks: seq<Tick>): (x: Loop)
    requires Valid(spec, reference)
    ensures x.session.state.phase <= 5
  {
    if ticks == [] then Opening(startNs, reference, armed)
    else TickStep(spec, startNs, reference, Run(spec, startNs, reference, armed, ticks[..|ticks| - 1]), ticks[|ticks| - 1])
  }

  // ----- the gate is never early

  /** While settling, the gate's window began no earlier than the settling phase. */
  ghost predicate GateFollowsPhase(startNs: nat, x: Loop) {
    x.session.state.settling && x.gate.since > 0 ==> Elapsed(startNs, x.gate.since) >= x.session.state.start
  }

  ghost predicate LoopInvariant(spec: AutoSpec, startNs: nat, x: Loop) {
    var s := x.session.state;
    && s.phase <= 5 && s.start <= s.last && (s.settling ==> s.Waiting() && spec.handling.Some?)
    && x.session.fault != Some(PairedSweep.PrematureSettling)
    && (x.Live() ==> GateFollowsPhase(startNs, x))
  }

  lemma LaterElapsed(startNs: nat, a: nat, b: nat)
    ensures Elapsed(startNs, b) - Elapsed(startNs, a) == (b - a) as real / 1_000_000_000.0
    ensures a <= b ==> Elapsed(startNs, a) <= Elapsed(startNs, b)
  {}

  lemma InvariantStep(spec: AutoSpec, startNs: nat, reference: Vec8, x: Loop, tick: Tick)
    requires Valid(spec, reference) && LoopInvariant(spec, startNs, x)
    ensures LoopInvariant(spec, startNs, TickStep(spec, startNs, reference, x, tick))
  {
    hide Valid, Sent, SettlingGate.Quiet, SettlingGate.Moved, SettlingGate.Lower, SettlingGate.Upper;
    var y := TickStep(spec, startNs, reference, x, tick);
    if x.gate.since > 0 { LaterElapsed(startNs, x.gate.since, tick.now); }
  }

  lemma {:induction false} RunInvariant(spec: AutoSpec, startNs: nat, reference: Vec8, armed: AutoGuard.Guard, ticks: seq<Tick>)
    requires Valid(spec, reference)
    ensures LoopInvariant(spec, startNs, Run(spec, startNs, reference, armed, ticks))
  {
    hide Valid, LoopInvariant;
    if ticks == [] {
      OpeningInvariant(spec, startNs, reference, armed);
    } else {
      var front := ticks[..|ticks| - 1];
      RunInvariant(spec, startNs, reference, armed, front);
      InvariantStep(spec, startNs, reference, Run(spec, startNs, reference, armed, front), ticks[|ticks| - 1]);
    }
  }

  lemma OpeningInvariant(spec: AutoSpec, startNs: nat, reference: Vec8, armed: AutoGuard.Guard)
    ensures LoopInvariant(spec, startNs, Opening(startNs, reference, armed))
  {}

  /** Composed as in the loop, the gate and the sweep agree: whatever the feedback, the
      clock and the operator do, no tick raises "premature settling completion". */
  lemma PrematureSettlingUnreachable(spec: AutoSpec, startNs: nat, reference: Vec8, armed: AutoGuard.Guard, ticks: seq<Tick>)
    requires Valid(spec, reference)
    ensures Run(spec, startNs, reference, armed, ticks).fault != Some(SweepFault(PairedSweep.PrematureSettling))
  {
    hide Valid;
    if ticks != [] {
      var front := ticks[..|ticks| - 1];
      PrematureSettlingUnreachable(spec, startNs, reference, armed, front);
      RunInvariant(spec, startNs, reference, armed, ticks);
      FaultIsNew(spec, startNs, reference, Run(spec, startNs, reference, armed, front), ticks[|ticks| - 1]);
    }
  }

  lemma FaultIsNew(spec: AutoSpec, startNs: nat, reference: Vec8, x: Loop, tick: Tick)
    requires Valid(spec, reference) && x.session.state.phase <= 5
    ensures var y := TickStep(spec, startNs, reference, x, tick);
      y.fault == x.fault || y.fault in [Some(DeadlineMissed), Some(GateClock), Some(GuardFailed), Some(DeviceFailed)]
      || (y.session.fault.Some? && y.fault == Some(SweepFault(y.session.fault.value)))
  {
    hide Valid, Commanded;
  }

  // ----- the command never jumps

  ghost predicate Close(spec: AutoSpec, a: Command, b: Command) {
    forall m :: 0 <= m < 8 ==> Within(b.target[m] - a.target[m], spec.maxSpeed, b.elapsed - a.elapsed)
  }

  lemma CommandedTargets(spec: AutoSpec, reference: Vec8, s: PairedSweep.State, e: real)
    requires Valid(spec, reference) && s.start <= e
    ensures s.Waiting() ==> Commanded(spec, reference, s, e) == reference
    ensures s.start == e ==> Commanded(spec, reference, s, e) == reference
    ensures !s.Waiting() ==> spec.Target(reference, e - s.start, false) == Some(Commanded(spec, reference, s, e))
    ensures e - s.start >= spec.SweepSeconds() ==> Commanded(spec, reference, s, e) == reference
  {
    TargetHolds(spec, reference, e - s.start);
    TargetFollowsPath(spec, reference, e - s.start, 0);
  }

  lemma SpeedNonnegative(spec: AutoSpec)
    requires spec.Valid()
    ensures spec.maxSpeed > 0.0
  {}

  /** Two instants of one sweep. */
  lemma SameSweepClose(spec: AutoSpec, reference: Vec8, s: PairedSweep.State, a: real, b: real)
    requires Valid(spec, reference) && s.start <= a <= b && !s.Waiting()
    ensures Close(spec, Command(a, Commanded(spec, reference, s, a)), Command(b, Commanded(spec, reference, s, b)))
  {
    CommandedTargets(spec, reference, s, a);
    CommandedTargets(spec, reference, s, b);
    hide Commanded;
    assert spec.Valid();
    forall m | 0 <= m < 8
      ensures Within(Commanded(spec, reference, s, b)[m] - Commanded(spec, reference, s, a)[m], spec.maxSpeed, b - a)
    {
      hide *;
      TargetSpeedLimit(spec, reference, a - s.start, b - s.start, m);
      SameDifference(-s.start, a, b);
      assert (b - s.start) - (a - s.start) == b - a;
    }
  }

  lemma RestClose(spec: AutoSpec, target: Vec8, a: real, b: real)
    requires spec.maxSpeed > 0.0 && a <= b
    ensures Close(spec, Command(a, target), Command(b, target))
  {
    Product(spec.maxSpeed, b - a);
  }

  /** One accepted step of the sweep: same phase, a new phase or a new sweep. */
  lemma StepClose(spec: AutoSpec, reference: Vec8, s: PairedSweep.State, i: PairedSweep.Input)
    requires Valid(spec, reference) && s.phase <= 5 && s.start <= s.last && (s.settling ==> s.Waiting())
    requires var (n, fault) := PairedSweep.Step(SweepConfig(spec), s, i.elapsed, i.advance, i.settled);
      fault == None && n.phase < 5
    ensures var n := PairedSweep.Step(SweepConfig(spec), s, i.elapsed, i.advance, i.settled).0;
      && s.last <= i.elapsed && n.last == i.elapsed && n.start <= n.last
      && Close(spec, Command(s.last, Commanded(spec, reference, s, s.last)),
                     Command(i.elapsed, Commanded(spec, reference, n, i.elapsed)))
  {
    var n := PairedSweep.Step(SweepConfig(spec), s, i.elapsed, i.advance, i.settled).0;
    CommandedTargets(spec, reference, s, s.last);
    CommandedTargets(spec, reference, n, i.elapsed);
    SpeedNonnegative(spec);
    hide Commanded, Valid, Close;
    if s.Waiting() {
      RestClose(spec, reference, s.last, i.elapsed);
    } else {
      SameSweepClose(spec, reference, s, s.last, i.elapsed);
      CommandedTargets(spec, reference, s, i.elapsed);
    }
  }

  ghost predicate AllClose(spec: AutoSpec, commands: seq<Command>) {
    forall i, j :: 0 <= i <= j < |commands| ==> Close(spec, commands[i], commands[j])
  }

  lemma CloseTransitive(spec: AutoSpec, a: Command, b: Command, c: Command)
    requires Close(spec, a, b) && Close(spec, b, c)
    ensures Close(spec, a, c)
  {
    forall m | 0 <= m < 8 ensures Within(c.target[m] - a.target[m], spec.maxSpeed, c.elapsed - a.elapsed) {
      var v, w := b.target[m] - a.target[m], c.target[m] - b.target[m];
      var h, g := b.elapsed - a.elapsed, c.elapsed - b.elapsed;
      WithinSum(v, w, spec.maxSpeed, h, g);
      assert v + w == c.target[m] - a.target[m] && h + g == c.elapsed - a.elapsed;
    }
  }

  lemma AllCloseGrows(spec: AutoSpec, commands: seq<Command>, next: Command)
    requires commands != [] && AllClose(spec, commands) && Close(spec, commands[|commands| - 1], next) && Close(spec, next, next)
    ensures AllClose(spec, commands + [next])
  {
    hide Close;
    forall i | 0 <= i < |commands| ensures Close(spec, commands[i], next) {
      CloseTransitive(spec, commands[i], commands[|commands| - 1], next);
    }
  }

  /** While the loop lives, its last command is the target of its present phase and time. */
  ghost predicate Current(spec: AutoSpec, reference: Vec8, x: Loop)
    requires Valid(spec, reference)
  {
    var s := x.session.state;
    x.commands != [] && (x.Live() ==> x.commands[|x.commands| - 1] == Command(s.last, Commanded(spec, reference, s, s.last)))
  }

  lemma TickCommands(spec: AutoSpec, startNs: nat, reference: Vec8, x: Loop, tick: Tick)
    requires Valid(spec, reference) && LoopInvariant(spec, startNs, x)
    requires Current(spec, reference, x) && AllClose(spec, x.commands)
    ensures var y := TickStep(spec, startNs, reference, x, tick);
      Current(spec, reference, y) && AllClose(spec, y.commands)
  {
    hide Valid, Close, AllClose, TickStep, Commanded;
    TickCommand(spec, startNs, reference, x, tick);
    var y := TickStep(spec, startNs, reference, x, tick);
    if y.commands != x.commands {
      var next := y.commands[|x.commands|];
      AtOnce(spec, reference, next);
      AllCloseGrows(spec, x.commands, next);
    }
  }

  lemma AtOnce(spec: AutoSpec, reference: Vec8, next: Command)
    requires Valid(spec, reference)
    ensures Close(spec, next, next)
  {
    SpeedNonnegative(spec);
    RestClose(spec, next.target, next.elapsed, next.elapsed);
  }

  /** What the first half of a tick may change. */
  lemma FirstHalf(spec: AutoSpec, startNs: nat, x: Loop, tick: Tick) returns (stable: bool)
    requires x.Live() && x.session.state.phase <= 5
    ensures var y := Stepped(spec, startNs, x, tick);
      && y.commands == x.commands && y.guard == x.guard && y.deadline == x.deadline && y.fault != Some(GuardFailed)
      && (y.fault == None ==>
            y.session == PairedSweep.Continue(SweepConfig(spec), x.session, PairedSweep.Input(Elapsed(startNs, tick.now), tick.advance, stable))
            && y.session.fault == None)
  {
    hide SettlingGate.Updated, SettlingGate.Monotonic, PairedSweep.Continue, SweepConfig, Elapsed;
    var watching := x.session.state.settling && spec.handling.Some?;
    stable := watching && SettlingGate.Updated(spec.handling.value, x.gate, tick.now, tick.feedback).1;
  }

  /** A tick that commands at all commands the target of the state it leaves, close to the last one. */
  lemma TickCommand(spec: AutoSpec, startNs: nat, reference: Vec8, x: Loop, tick: Tick)
    requires Valid(spec, reference) && LoopInvariant(spec, startNs, x) && Current(spec, reference, x)
    ensures var y := TickStep(spec, startNs, reference, x, tick);
      if y.commands == x.commands then !y.Live()
      else
        && x.Live() && y.commands == x.commands + [Command(y.session.state.last, Commanded(spec, reference, y.session.state, y.session.state.last))]
        && Close(spec, x.commands[|x.commands| - 1], y.commands[|x.commands|])
  {
    hide Valid, Close, Commanded, Stepped;
    if x.Live() {
      var stable := FirstHalf(spec, startNs, x, tick);
      var z := Stepped(spec, startNs, x, tick);
      if z.fault == None && !z.session.state.Complete() {
        StepClose(spec, reference, x.session.state, PairedSweep.Input(Elapsed(startNs, tick.now), tick.advance, stable));
      }
    }
  }

  /** Over a whole paired session, for every sequence of ticks, acknowledgements and
      feedback: between any two commands, from the reference sent before the first tick to
      the last, no motor's target changes faster than the reference speed budget. */
  lemma {:induction false} CommandNeverJumps(spec: AutoSpec, startNs: nat, reference: Vec8, armed: AutoGuard.Guard, ticks: seq<Tick>)
    requires Valid(spec, reference)
    ensures var x := Run(spec, startNs, reference, armed, ticks);
      Current(spec, reference, x) && AllClose(spec, x.commands)
  {
    if ticks == [] {
      CommandedTargets(spec, reference, PairedSweep.INITIAL, 0.0);
      SpeedNonnegative(spec);
      RestClose(spec, reference, 0.0, 0.0);
    } else {
      var front := ticks[..|ticks| - 1];
      CommandNeverJumps(spec, startNs, reference, armed, front);
      RunInvariant(spec, startNs, reference, armed, front);
      hide Valid, AllClose, Current, LoopInvariant;
      TickCommands(spec, startNs, reference, Run(spec, startNs, reference, armed, front), ticks[|ticks| - 1]);
    }
  }

  // ----- the command stays in bounds, and still while an operator handles the arm

  ghost predicate Safe(spec: AutoSpec, reference: Vec8, c: Command)
    requires spec.Valid()
  {
    forall m :: 0 <= m < 8 ==>
      && spec.motors[m].minDeg <= c.target[m] <= spec.motors[m].maxDeg
      && Abs(c.target[m] - reference[m]) <= spec.motors[m].excursion
  }

  lemma CommandedSafe(spec: AutoSpec, reference: Vec8, s: PairedSweep.State, e: real)
    requires Valid(spec, reference) && s.start <= e
    ensures Safe(spec, reference, Command(e, Commanded(spec, reference, s, e)))
  {
    AcceptedInside(spec, reference, e - s.start, s.Waiting());
  }

  /** Every command so far is safe, and the last one of a waiting session is the reference. */
  ghost predicate AllSafe(spec: AutoSpec, reference: Vec8, x: Loop)
    requires spec.Valid()
  {
    && (forall i :: 0 <= i < |x.commands| ==> Safe(spec, reference, x.commands[i]))
    && (x.Live() && x.session.state.Waiting() && x.commands != [] ==> x.commands[|x.commands| - 1].target == reference)
  }

  /** Every command of the session lies within every motor's bounds and excursion, so the
      guard's checks of the target never fire; and a command sent while waiting for, or
      settling after, an operator is the reference itself. */
  lemma {:induction false} CommandsAreSafe(spec: AutoSpec, startNs: nat, reference: Vec8, armed: AutoGuard.Guard, ticks: seq<Tick>)
    requires Valid(spec, reference)
    ensures AllSafe(spec, reference, Run(spec, startNs, reference, armed, ticks))
  {
    if ticks == [] {
      CommandedTargets(spec, reference, PairedSweep.INITIAL, 0.0);
      CommandedSafe(spec, reference, PairedSweep.INITIAL, 0.0);
    } else {
      var front := ticks[..|ticks| - 1];
      CommandsAreSafe(spec, startNs, reference, armed, front);
      CommandNeverJumps(spec, startNs, reference, armed, front);
      RunInvariant(spec, startNs, reference, armed, front);
      RunInvariant(spec, startNs, reference, armed, ticks);
      hide AllSafe, TickStep, Current, AllClose, LoopInvariant;
      TickSafe(spec, startNs, reference, Run(spec, startNs, reference, armed, front), ticks[|ticks| - 1]);
    }
  }

  lemma TickSafe(spec: AutoSpec, startNs: nat, reference: Vec8, x: Loop, tick: Tick)
    requires Valid(spec, reference) && LoopInvariant(spec, startNs, x) && Current(spec, reference, x)
    requires AllSafe(spec, reference, x) && LoopInvariant(spec, startNs, TickStep(spec, startNs, reference, x, tick))
    ensures AllSafe(spec, reference, TickStep(spec, startNs, reference, x, tick))
  {
    hide TickStep, Valid, Commanded, Safe, Close;
    TickCommand(spec, startNs, reference, x, tick);
    var y := TickStep(spec, startNs, reference, x, tick);
    ValidSpec(spec, reference);
    CommandedSafe(spec, reference, y.session.state, y.session.state.last);
    CommandedTargets(spec, reference, y.session.state, y.session.state.last);
  }

  lemma ValidSpec(spec: AutoSpec, reference: Vec8)
    requires Valid(spec, reference)
    ensures spec.Valid()
  {}

  // ----- the guard never objects to a target

  /** The guard has accepted the reference and not failed. */
  predicate Armed(g: AutoGuard.Guard, reference: Vec8) { g.ready && !g.failed && g.reference == reference }

  /** While the loop lives its guard is armed. */
  lemma {:induction false} GuardStaysArmed(spec: AutoSpec, startNs: nat, reference: Vec8, armed: AutoGuard.Guard, ticks: seq<Tick>)
    requires Valid(spec, reference) && Armed(armed, reference)
    ensures Run(spec, startNs, reference, armed, ticks).Live() ==> Armed(Run(spec, startNs, reference, armed, ticks).guard, reference)
  {
    hide Valid;
    if ticks != [] {
      var front := ticks[..|ticks| - 1];
      GuardStaysArmed(spec, startNs, reference, armed, front);
      TickKeepsGuard(spec, startNs, reference, Run(spec, startNs, reference, armed, front), ticks[|ticks| - 1]);
    }
  }

  lemma TickKeepsGuard(spec: AutoSpec, startNs: nat, reference: Vec8, x: Loop, tick: Tick)
    requires Valid(spec, reference) && x.session.state.phase <= 5 && (x.Live() ==> Armed(x.guard, reference))
    ensures var y := TickStep(spec, startNs, reference, x, tick); y.Live() ==> Armed(y.guard, reference)
  {
    hide Commanded, AutoGuard.Checked, AutoGuard.Passes, SettlingGate.Updated;
    var y := TickStep(spec, startNs, reference, x, tick);
    var target := Commanded(spec, reference, y.session.state, Elapsed(startNs, tick.now));
    AutoGuard.CheckedPasses(spec, x.guard, Shown(spec, y.session.state, tick, target));
  }

  /** The tick got as far as the guard. */
  predicate ReachedGuard(x: Loop, y: Loop) { x.Live() && (y.fault == Some(GuardFailed) || y.commands != x.commands) }

  /** At every tick that gets as far as the guard, every clause of the guard about the target holds
      and the context is valid if only the guard's clock advances: what fails it is the feedback. */
  lemma GuardAcceptsTargets(
    spec: AutoSpec, startNs: nat, reference: Vec8, armed: AutoGuard.Guard, ticks: seq<Tick>, i: nat)
    requires Valid(spec, reference) && Armed(armed, reference) && ticks != [] && i < 8
    requires ReachedGuard(Run(spec, startNs, reference, armed, ticks[..|ticks| - 1]), Run(spec, startNs, reference, armed, ticks))
    ensures var tick := ticks[|ticks| - 1];
      var x, y := Run(spec, startNs, reference, armed, ticks[..|ticks| - 1]), Run(spec, startNs, reference, armed, ticks);
      var sample := Shown(spec, y.session.state, tick, Commanded(spec, reference, y.session.state, y.session.state.last));
      && (y.fault == Some(GuardFailed) <==> !AutoGuard.Passes(spec, x.guard, sample))
      && (AutoGuard.ContextOk(spec, x.guard.reference, x.guard.lastNow, sample) <==> tick.checkedAt > x.guard.lastNow)
      && AutoGuard.TargetOk(spec.motors[i], sample.target[i], x.guard.reference[i])
      && AutoGuard.PostureOk(spec, spec.motors[i], sample.states[i], sample.target[i], x.guard.reference[i])
         == AutoGuard.StateOk(spec, spec.motors[i], sample.states[i], x.guard.reference[i])
  {
    var front, tick := ticks[..|ticks| - 1], ticks[|ticks| - 1];
    var x, y := Run(spec, startNs, reference, armed, front), Run(spec, startNs, reference, armed, ticks);
    var s := y.session.state;
    GuardStaysArmed(spec, startNs, reference, armed, front);
    RunInvariant(spec, startNs, reference, armed, ticks);
    hide Run, TickStep, AutoGuard.StateOk, LoopInvariant, Valid;
    GuardVerdict(spec, startNs, reference, x, tick);
    StartsBeforeLast(spec, startNs, y);
    CommandedSafe(spec, reference, s, s.last);
    CommandedTargets(spec, reference, s, s.last);
    hide Commanded;
    SafeTarget(spec, reference, Command(s.last, Commanded(spec, reference, s, s.last)), i);
  }

  lemma StartsBeforeLast(spec: AutoSpec, startNs: nat, y: Loop)
    requires LoopInvariant(spec, startNs, y)
    ensures y.session.state.start <= y.session.state.last
  {}

  lemma SafeTarget(spec: AutoSpec, reference: Vec8, c: Command, i: nat)
    requires spec.Valid() && Safe(spec, reference, c) && i < 8
    ensures AutoGuard.TargetOk(spec.motors[i], c.target[i], reference[i])
  {}

  lemma GuardVerdict(spec: AutoSpec, startNs: nat, reference: Vec8, x: Loop, tick: Tick)
    requires Valid(spec, reference) && x.session.state.phase <= 5
    requires ReachedGuard(x, TickStep(spec, startNs, reference, x, tick))
    ensures var y := TickStep(spec, startNs, reference, x, tick);
      y.fault == Some(GuardFailed) <==> !AutoGuard.Passes(spec, x.guard,
        Shown(spec, y.session.state, tick, Commanded(spec, reference, y.session.state, y.session.state.last)))
  {
    hide Commanded, AutoGuard.Checked, AutoGuard.Passes, SettlingGate.Updated;
    var y := TickStep(spec, startNs, reference, x, tick);
    var target := Commanded(spec, reference, y.session.state, Elapsed(startNs, tick.now));
    AutoGuard.CheckedPasses(spec, x.guard, Shown(spec, y.session.state, tick, target));
    assert y.session.state.last == Elapsed(startNs, tick.now);
  }

  // ----- the session the verifier will see

  /** The deadline of tick k. */
  function Due(spec: AutoSpec, startNs: nat, k: nat): nat
    requires spec.rateHz > 0
  {
    startNs + k * PeriodNs(spec)
  }

  lemma NextDue(spec: AutoSpec, startNs: nat, k: nat)
    requires spec.rateHz > 0
    ensures Due(spec, startNs, k + 1) == Due(spec, startNs, k) + PeriodNs(spec) && Due(spec, startNs, 0) == startNs
  {
    assert (k + 1) * PeriodNs(spec) == k * PeriodNs(spec) + PeriodNs(spec);
  }

  /** A tick either stops the loop before it steps the sweep, or is one step of it. */
  lemma TickInput(spec: AutoSpec, startNs: nat, reference: Vec8, x: Loop, tick: Tick) returns (input: Option<PairedSweep.Input>)
    requires Valid(spec, reference) && x.session.state.phase <= 5
    ensures var y := TickStep(spec, startNs, reference, x, tick);
      match input
      case None => y.session == x.session && !y.Live()
      case Some(i) =>
        && x.Live() && y.session == PairedSweep.Continue(SweepConfig(spec), x.session, i)
        && i.elapsed == Elapsed(startNs, tick.now) && tick.now <= x.deadline + spec.stateTimeoutNs
        && (y.Live() ==> spec.rateHz > 0 && y.deadline == x.deadline + PeriodNs(spec))
  {
    RateIsPositive(spec, reference);
    hide Valid, Commanded, SettlingGate.Updated;
    var watching := x.session.state.settling && spec.handling.Some?;
    if x.Live() && tick.now <= x.deadline + spec.stateTimeoutNs && tick.device != ReadFails && (!watching || SettlingGate.Monotonic(x.gate, tick.now)) {
      var stable := watching && SettlingGate.Updated(spec.handling.value, x.gate, tick.now, tick.feedback).1;
      input := Some(PairedSweep.Input(Elapsed(startNs, tick.now), tick.advance, stable));
    } else {
      input := None;
    }
  }

  /** Step k was taken at tick k, no later than its deadline allows. */
  ghost predicate Tracks(spec: AutoSpec, startNs: nat, ticks: seq<Tick>, inputs: seq<PairedSweep.Input>)
    requires spec.rateHz > 0
  {
    |inputs| <= |ticks| && forall k :: 0 <= k < |inputs| ==>
      inputs[k].elapsed == Elapsed(startNs, ticks[k].now) && ticks[k].now <= Due(spec, startNs, k) + spec.stateTimeoutNs
  }

  lemma TracksGrow(spec: AutoSpec, startNs: nat, ticks: seq<Tick>, inputs: seq<PairedSweep.Input>, i: PairedSweep.Input)
    requires spec.rateHz > 0 && ticks != [] && Tracks(spec, startNs, ticks[..|ticks| - 1], inputs)
    ensures Tracks(spec, startNs, ticks, inputs)
    ensures (|inputs| + 1 == |ticks| && i.elapsed == Elapsed(startNs, ticks[|inputs|].now)
             && ticks[|inputs|].now <= Due(spec, startNs, |inputs|) + spec.stateTimeoutNs)
            ==> Tracks(spec, startNs, ticks, inputs + [i])
  {
    hide Due, Elapsed;
  }

  /** The loop runs the paired sweep on the elapsed times of its ticks, one step a tick,
      on a deadline schedule that advances one period a tick. */
  lemma {:induction false} LoopRunsSweep(spec: AutoSpec, startNs: nat, reference: Vec8, armed: AutoGuard.Guard, ticks: seq<Tick>)
    returns (inputs: seq<PairedSweep.Input>)
    requires Valid(spec, reference)
    ensures spec.rateHz > 0
    ensures var x := Run(spec, startNs, reference, armed, ticks);
      && x.session == PairedSweep.Run(SweepConfig(spec), inputs) && Tracks(spec, startNs, ticks, inputs)
      && (x.Live() ==> |inputs| == |ticks| && x.deadline == Due(spec, startNs, |ticks|))
  {
    RateIsPositive(spec, reference);
    NextDue(spec, startNs, 0);
    inputs := [];
    if ticks != [] {
      var n := |ticks| - 1;
      inputs := LoopRunsSweep(spec, startNs, reference, armed, ticks[..n]);
      var input := TickInput(spec, startNs, reference, Run(spec, startNs, reference, armed, ticks[..n]), ticks[n]);
      NextDue(spec, startNs, n);
      TracksGrow(spec, startNs, ticks, inputs, if input.Some? then input.value else PairedSweep.Input(0.0, false, false));
      hide Valid, TickStep, PairedSweep.Continue, Elapsed, Due, PeriodNs, Tracks;
      if input.Some? {
        PairedSweep.RunOneMore(SweepConfig(spec), inputs, input.value);
        inputs := inputs + [input.value];
      }
    }
  }

  lemma RateIsPositive(spec: AutoSpec, reference: Vec8)
    requires Valid(spec, reference)
    ensures spec.rateHz > 0
  {}

  /** The clock never stands still between ticks. */
  ghost predicate Clocked(startNs: nat, ticks: seq<Tick>) {
    forall k :: 0 < k < |ticks| ==> ticks[k - 1].now < ticks[k].now
  }

  ghost predicate TickGaps(startNs: nat, ticks: seq<Tick>, gapNs: nat) {
    && (ticks != [] ==> ticks[0].now <= startNs + gapNs)
    && forall k :: 0 < k < |ticks| ==> ticks[k].now <= ticks[k - 1].now + gapNs
  }

  ghost predicate PolicyOf(policy: PairedProtocol.Policy, spec: AutoSpec) {
    PairedProtocol.Configures(policy, SweepConfig(spec))
  }

  /** A paired run that completes with ticks no further apart than the tolerance leaves a
      report the offline verifier accepts. */
  lemma CompletedLoopAccepted(spec: AutoSpec, startNs: nat, reference: Vec8, armed: AutoGuard.Guard, ticks: seq<Tick>,
                              policy: PairedProtocol.Policy, gapNs: nat)
    requires Valid(spec, reference) && PolicyOf(policy, spec) && Clocked(startNs, ticks) && TickGaps(startNs, ticks, gapNs)
    requires var x := Run(spec, startNs, reference, armed, ticks); x.fault == None && x.session.state.Complete() && x.session.fault == None
    ensures var x := Run(spec, startNs, reference, armed, ticks);
      x.session.log != [] && PairedProtocol.PairedPhases(PairedProtocol.ReportOf(policy, x.session), NanoSeconds(gapNs)).Ok?
  {
    hide Valid, Run;
    var inputs := LoopRunsSweep(spec, startNs, reference, armed, ticks);
    ConfigValid(spec, reference);
    forall k | 0 < k < |inputs|
      ensures inputs[k - 1].elapsed < inputs[k].elapsed && inputs[k].elapsed - inputs[k - 1].elapsed <= NanoSeconds(gapNs)
    {
      LaterElapsed(startNs, ticks[k - 1].now, ticks[k].now);
      GapElapsed(ticks[k].now - ticks[k - 1].now, gapNs);
    }
    if inputs != [] {
      LaterElapsed(startNs, startNs, ticks[0].now);
      GapElapsed(ticks[0].now - startNs, gapNs);
    }
    PairedProtocol.TimelySessionAccepted(SweepConfig(spec), policy, inputs, NanoSeconds(gapNs));
  }

  // ----- exactly which completed loops are accepted

  /** A tick that finds its sweep overdue: it comes more than the tolerance after the sweep's end. */
  predicate TickOverdue(spec: AutoSpec, startNs: nat, x: Loop, tick: Tick, toleranceNs: nat) {
    x.Live() && PairedProtocol.Overdue(SweepConfig(spec), x.session.state, Elapsed(startNs, tick.now), NanoSeconds(toleranceNs))
  }

  ghost predicate NoTickOverdue(
    spec: AutoSpec, startNs: nat, reference: Vec8, armed: AutoGuard.Guard, ticks: seq<Tick>, toleranceNs: nat)
    requires Valid(spec, reference)
  {
    forall k :: 0 <= k < |ticks| ==>
      !TickOverdue(spec, startNs, Run(spec, startNs, reference, armed, ticks[..k]), ticks[k], toleranceNs)
  }

  /** The inputs are those of the loop's ticks, one by one, and after them the loop is over and its
      session stays as it is. */
  ghost predicate Mirrors(
    spec: AutoSpec, startNs: nat, reference: Vec8, armed: AutoGuard.Guard, ticks: seq<Tick>, inputs: seq<PairedSweep.Input>)
    requires Valid(spec, reference)
  {
    && |inputs| <= |ticks|
    && (forall k :: 0 <= k < |inputs| ==> inputs[k].elapsed == Elapsed(startNs, ticks[k].now))
    && forall k :: 0 <= k <= |ticks| ==> SameSession(spec, startNs, reference, armed, ticks, inputs, k)
  }

  predicate SameSession(
    spec: AutoSpec, startNs: nat, reference: Vec8, armed: AutoGuard.Guard, ticks: seq<Tick>, inputs: seq<PairedSweep.Input>, k: nat)
    requires Valid(spec, reference) && k <= |ticks|
  {
    var x := Run(spec, startNs, reference, armed, ticks[..k]);
    if k <= |inputs| then x.session == PairedSweep.Run(SweepConfig(spec), inputs[..k])
    else x.session == PairedSweep.Run(SweepConfig(spec), inputs) && !x.Live()
  }

  lemma MirrorsGrow(
    spec: AutoSpec, startNs: nat, reference: Vec8, armed: AutoGuard.Guard, ticks: seq<Tick>, inputs: seq<PairedSweep.Input>,
    i: PairedSweep.Input)
    requires Valid(spec, reference) && ticks != [] && Mirrors(spec, startNs, reference, armed, ticks[..|ticks| - 1], inputs)
    requires |inputs| + 1 == |ticks| && i.elapsed == Elapsed(startNs, ticks[|inputs|].now)
    requires Run(spec, startNs, reference, armed, ticks).session == PairedSweep.Run(SweepConfig(spec), inputs + [i])
    ensures Mirrors(spec, startNs, reference, armed, ticks, inputs + [i])
  {
    hide Valid, Run, PairedSweep.Run, Elapsed, SweepConfig;
    var n, longer := |inputs|, inputs + [i];
    forall k | 0 <= k <= |longer| ensures SameSession(spec, startNs, reference, armed, ticks, longer, k) {
      if k <= n {
        assert SameSession(spec, startNs, reference, armed, ticks[..n], inputs, k);
        assert ticks[..n][..k] == ticks[..k] && longer[..k] == inputs[..k];
      } else {
        assert ticks[..k] == ticks && longer[..k] == longer;
      }
    }
  }

  lemma MirrorsEnd(
    spec: AutoSpec, startNs: nat, reference: Vec8, armed: AutoGuard.Guard, ticks: seq<Tick>, inputs: seq<PairedSweep.Input>)
    requires Valid(spec, reference) && ticks != [] && Mirrors(spec, startNs, reference, armed, ticks[..|ticks| - 1], inputs)
    requires !Run(spec, startNs, reference, armed, ticks).Live()
    requires Run(spec, startNs, reference, armed, ticks).session == Run(spec, startNs, reference, armed, ticks[..|ticks| - 1]).session
    ensures Mirrors(spec, startNs, reference, armed, ticks, inputs)
  {
    hide Valid, Run, PairedSweep.Run, Elapsed, SweepConfig;
    var n := |ticks| - 1;
    assert ticks[..n + 1] == ticks && ticks[..n][..n] == ticks[..n];
    assert SameSession(spec, startNs, reference, armed, ticks[..n], inputs, n);
    assert inputs[..|inputs|] == inputs;
    forall k | 0 <= k <= n ensures SameSession(spec, startNs, reference, armed, ticks, inputs, k) {
      assert SameSession(spec, startNs, reference, armed, ticks[..n], inputs, k);
      assert ticks[..n][..k] == ticks[..k];
    }
    assert SameSession(spec, startNs, reference, armed, ticks, inputs, n + 1);
  }

  lemma {:induction false} LoopMirrorsSweep(
    spec: AutoSpec, startNs: nat, reference: Vec8, armed: AutoGuard.Guard, ticks: seq<Tick>) returns (inputs: seq<PairedSweep.Input>)
    requires Valid(spec, reference)
    ensures Mirrors(spec, startNs, reference, armed, ticks, inputs)
  {
    hide Valid, TickStep, PairedSweep.Continue, Elapsed, Mirrors, SweepConfig, PairedSweep.Run;
    inputs := [];
    if ticks == [] {
      NothingMirrored(spec, startNs, reference, armed);
    } else {
      var n := |ticks| - 1;
      inputs := LoopMirrorsSweep(spec, startNs, reference, armed, ticks[..n]);
      var x := Run(spec, startNs, reference, armed, ticks[..n]);
      var input := TickInput(spec, startNs, reference, x, ticks[n]);
      LastMirrored(spec, startNs, reference, armed, ticks[..n], inputs);
      if input.Some? {
        PairedSweep.RunOneMore(SweepConfig(spec), inputs, input.value);
        MirrorsGrow(spec, startNs, reference, armed, ticks, inputs, input.value);
        inputs := inputs + [input.value];
      } else {
        MirrorsEnd(spec, startNs, reference, armed, ticks, inputs);
      }
    }
  }

  lemma NothingMirrored(spec: AutoSpec, startNs: nat, reference: Vec8, armed: AutoGuard.Guard)
    requires Valid(spec, reference)
    ensures Mirrors(spec, startNs, reference, armed, [], [])
  {
    hide Valid;
    assert SameSession(spec, startNs, reference, armed, [], [], 0);
  }

  lemma LastMirrored(
    spec: AutoSpec, startNs: nat, reference: Vec8, armed: AutoGuard.Guard, ticks: seq<Tick>, inputs: seq<PairedSweep.Input>)
    requires Valid(spec, reference) && Mirrors(spec, startNs, reference, armed, ticks, inputs)
    ensures var x := Run(spec, startNs, reference, armed, ticks);
      x.session == PairedSweep.Run(SweepConfig(spec), inputs) && (x.Live() ==> |inputs| == |ticks|)
  {
    hide Valid, Run, PairedSweep.Run;
    assert SameSession(spec, startNs, reference, armed, ticks, inputs, |ticks|);
    assert ticks[..|ticks|] == ticks && inputs[..|inputs|] == inputs;
  }

  /** A loop that completes leaves a report the offline verifier accepts if and only if no tick found
      its sweep overdue by more than the tolerance: a condition on each tick's time that can be read
      off before the tick. Nothing else can make the verifier reject it. */
  lemma CompletedLoopAcceptedExactly(
    spec: AutoSpec, startNs: nat, reference: Vec8, armed: AutoGuard.Guard, ticks: seq<Tick>,
    policy: PairedProtocol.Policy, toleranceNs: nat)
    requires Valid(spec, reference) && PolicyOf(policy, spec) && Clocked(startNs, ticks)
    requires var x := Run(spec, startNs, reference, armed, ticks);
      x.fault == None && x.session.state.Complete() && x.session.fault == None
    ensures var x := Run(spec, startNs, reference, armed, ticks);
      && x.session.log != []
      && var r := PairedProtocol.PairedPhases(PairedProtocol.ReportOf(policy, x.session), NanoSeconds(toleranceNs));
        && (r.Ok? <==> NoTickOverdue(spec, startNs, reference, armed, ticks, toleranceNs))
        && (r.Err? ==> r.error == PairedProtocol.BadSweep)
  {
    hide Valid, Run, PairedSweep.Run, PairedProtocol.PairedPhases, PairedProtocol.Overdue, PairedProtocol.NeverOverdue;
    var inputs := LoopMirrorsSweep(spec, startNs, reference, armed, ticks);
    ConfigValid(spec, reference);
    LastMirrored(spec, startNs, reference, armed, ticks, inputs);
    MirroredIncrease(spec, startNs, reference, armed, ticks, inputs);
    PairedProtocol.AcceptedExactlyOnTime(SweepConfig(spec), policy, inputs, NanoSeconds(toleranceNs));
    OverdueMirrored(spec, startNs, reference, armed, ticks, inputs, toleranceNs);
  }

  lemma MirroredIncrease(
    spec: AutoSpec, startNs: nat, reference: Vec8, armed: AutoGuard.Guard, ticks: seq<Tick>, inputs: seq<PairedSweep.Input>)
    requires Valid(spec, reference) && Mirrors(spec, startNs, reference, armed, ticks, inputs) && Clocked(startNs, ticks)
    ensures PairedProtocol.StrictlyIncreasing(inputs)
  {
    hide Valid, Run, PairedSweep.Run;
    forall k | 0 < k < |inputs| ensures inputs[k - 1].elapsed < inputs[k].elapsed {
      LaterElapsed(startNs, ticks[k - 1].now, ticks[k].now);
    }
  }

  /** A loop without a fault never had one. */
  lemma NeverFaulted(spec: AutoSpec, startNs: nat, reference: Vec8, armed: AutoGuard.Guard, ticks: seq<Tick>, k: nat)
    requires Valid(spec, reference) && k <= |ticks| && Run(spec, startNs, reference, armed, ticks).fault == None
    ensures Run(spec, startNs, reference, armed, ticks[..k]).fault == None
  {
    hide Valid, Run;
    if !Run(spec, startNs, reference, armed, ticks[..k]).Live() {
      StoppedStays(spec, startNs, reference, armed, ticks, k);
    }
  }

  /** In a loop without a fault, a tick is overdue exactly when its input is. */
  lemma OverdueMirrored(
    spec: AutoSpec, startNs: nat, reference: Vec8, armed: AutoGuard.Guard, ticks: seq<Tick>, inputs: seq<PairedSweep.Input>,
    toleranceNs: nat)
    requires Valid(spec, reference) && Mirrors(spec, startNs, reference, armed, ticks, inputs)
    requires Run(spec, startNs, reference, armed, ticks).fault == None
    ensures NoTickOverdue(spec, startNs, reference, armed, ticks, toleranceNs)
       <==> PairedProtocol.NeverOverdue(SweepConfig(spec), inputs, NanoSeconds(toleranceNs))
  {
    hide Valid, Run, PairedSweep.Run, Elapsed, SweepConfig, PairedProtocol.Overdue;
    forall k | 0 <= k < |ticks|
      ensures var overdue := TickOverdue(spec, startNs, Run(spec, startNs, reference, armed, ticks[..k]), ticks[k], toleranceNs);
        if k < |inputs| then overdue <==> !PairedProtocol.OnTime(SweepConfig(spec), inputs, k, NanoSeconds(toleranceNs)) else !overdue
    {
      NeverFaulted(spec, startNs, reference, armed, ticks, k);
      NeverFaulted(spec, startNs, reference, armed, ticks, k + 1);
      assert SameSession(spec, startNs, reference, armed, ticks, inputs, k);
      assert SameSession(spec, startNs, reference, armed, ticks, inputs, k + 1);
      assert inputs[..|inputs|] == inputs;
    }
  }

  lemma ConfigValid(spec: AutoSpec, reference: Vec8)
    requires Valid(spec, reference)
    ensures SweepConfig(spec).Valid()
  {}

  lemma GapElapsed(d: int, gapNs: nat)
    requires d <= gapNs
    ensures d as real / 1_000_000_000.0 <= NanoSeconds(gapNs)
  {}

  // ----- the loop itself

  lemma {:induction false} StoppedStays(spec: AutoSpec, startNs: nat, reference: Vec8, armed: AutoGuard.Guard, ticks: seq<Tick>, k: nat)
    requires Valid(spec, reference) && k <= |ticks| && !Run(spec, startNs, reference, armed, ticks[..k]).Live()
    ensures Run(spec, startNs, reference, armed, ticks) == Run(spec, startNs, reference, armed, ticks[..k])
    decreases |ticks|
  {
    hide Valid;
    if k == |ticks| {
      assert ticks[..k] == ticks;
    } else {
      var n := |ticks| - 1;
      assert ticks[..n][..k] == ticks[..k];
      StoppedStays(spec, startNs, reference, armed, ticks[..n], k);
    }
  }

  /** Have the guard check the target of the present phase and command it. */
  method SendTarget(spec: AutoSpec, reference: Vec8, x: Loop, tick: Tick, elapsed: real, guard: AutoGuard.Monitor)
    returns (y: Loop)
    requires Valid(spec, reference) && x.session.state.phase <= 5 && guard.spec == spec && guard.View() == x.guard
    modifies guard
    ensures y == Sent(spec, reference, x, tick, elapsed) && guard.View() == y.guard
  {
    hide Commanded, AutoGuard.Checked;
    RateIsPositive(spec, reference);
    var target := Commanded(spec, reference, x.session.state, elapsed);
    var passes := guard.Check(Shown(spec, x.session.state, tick, target));
    y := x.(guard := guard.View());
    if !passes { y := y.(fault := Some(GuardFailed)); return; }
    y := y.(commands := y.commands + [Command(elapsed, target)]);
    if tick.device == SendFails { y := y.(fault := Some(DeviceFailed)); return; }
    y := y.(deadline := y.deadline + PeriodNs(spec));
  }

  /** The first half of the loop body over the sweep and gate objects; `x` is the record of what they
      did, kept in step with them. */
  method Advance(
    spec: AutoSpec, startNs: nat, x: Loop, tick: Tick, paired: PairedSweep.Sweep, settling: SettlingGate.Gate?)
    returns (y: Loop)
    requires x.Live() && x.session.state.phase <= 5
    requires paired.config == SweepConfig(spec) && paired.View() == x.session.state
    requires settling == null <==> spec.handling == None
    requires settling != null ==> settling.handling == spec.handling.value && settling.View() == x.gate
    modifies paired, if settling == null then {} else {settling}
    ensures y == Stepped(spec, startNs, x, tick)
    ensures y.fault == None ==> paired.View() == y.session.state && (settling != null ==> settling.View() == y.gate)
  {
    hide Elapsed, SettlingGate.Updated, SettlingGate.Monotonic, SweepConfig, PairedSweep.Step, PairedSweep.NameOf;
    PairedSweep.PhaseStays(x.session.state);
    y := x;
    if tick.now > x.deadline + spec.stateTimeoutNs { y := x.(fault := Some(DeadlineMissed)); return; }
    var elapsed := Elapsed(startNs, tick.now);
    if tick.device == ReadFails { y := x.(fault := Some(DeviceFailed)); return; }
    var stable, gate := false, x.gate;
    if paired.settling && settling != null {
      var r := settling.Update(tick.now, tick.feedback);
      if r == None { y := x.(fault := Some(GateClock)); return; }
      stable, gate := r.value, settling.View();
    }
    var before := paired.View();
    var fault := paired.Advance(elapsed, tick.advance, stable);
    if fault.Some? {
      y := x.(session := x.session.(state := paired.View(), fault := fault), gate := gate, fault := Some(SweepFault(fault.value)));
      return;
    }
    var log := x.session.log;
    if PairedSweep.NameOf(paired.View()) != PairedSweep.NameOf(before) {
      if settling != null { settling.Reset(); }
      gate := gate.(since := 0, last := 0);
      log := log + [PairedSweep.PhaseEvent(PairedSweep.NameOf(paired.View()), elapsed)];
    }
    var acks := x.session.acks;
    if tick.advance { acks := acks + [if before.phase == 1 then PairedSweep.AttachReady else PairedSweep.RemoveReady]; }
    y := x.(session := PairedSweep.Session(paired.View(), None, log, acks), gate := gate);
  }

  /** One pass of the loop body over the sweep, gate and guard objects. */
  method Pass(
    spec: AutoSpec, startNs: nat, reference: Vec8, x: Loop, tick: Tick,
    paired: PairedSweep.Sweep, settling: SettlingGate.Gate?, guard: AutoGuard.Monitor) returns (y: Loop)
    requires Valid(spec, reference) && x.Live() && x.session.state.phase <= 5
    requires paired.config == SweepConfig(spec) && paired.View() == x.session.state
    requires settling == null <==> spec.handling == None
    requires settling != null ==> settling.handling == spec.handling.value && settling.View() == x.gate
    requires guard.spec == spec && guard.View() == x.guard
    modifies paired, guard, if settling == null then {} else {settling}
    ensures y == TickStep(spec, startNs, reference, x, tick) && guard.View() == y.guard
    ensures y.Live() ==> paired.View() == y.session.state && (settling != null ==> settling.View() == y.gate)
  {
    hide Valid, Elapsed, Sent, SweepConfig;
    GuardUntouched(spec, startNs, x, tick);
    y := Advance(spec, startNs, x, tick, paired, settling);
    hide Stepped;
    if y.fault == None && paired.phase != 5 {
      y := SendTarget(spec, reference, y, tick, Elapsed(startNs, tick.now), guard);
    }
  }

  lemma GuardUntouched(spec: AutoSpec, startNs: nat, x: Loop, tick: Tick)
    requires x.session.state.phase <= 5
    ensures Stepped(spec, startNs, x, tick).guard == x.guard
  {}

  /** The control loop, until it stops by itself or is told to (no further tick). The guard has
      accepted the reference before. */
  method Control(spec: AutoSpec, startNs: nat, reference: Vec8, guard: AutoGuard.Monitor, ticks: seq<Tick>)
    returns (x: Loop)
    requires Valid(spec, reference) && guard.spec == spec
    modifies guard
    ensures x == Run(spec, startNs, reference, old(guard.View()), ticks) && guard.View() == x.guard
  {
    ConfigValid(spec, reference);
    hide Valid, TickStep, SweepConfig;
    ghost var armed := guard.View();
    var paired := new PairedSweep.Sweep(SweepConfig(spec));
    var settling := null;
    if spec.handling.Some? { settling := new SettlingGate.Gate(spec.handling.value); }
    x := Opening(startNs, reference, guard.View());
    for k := 0 to |ticks|
      invariant x == Run(spec, startNs, reference, armed, ticks[..k]) && x.Live()
      invariant paired.config == SweepConfig(spec) && paired.View() == x.session.state && fresh(paired)
      invariant settling == null <==> spec.handling == None
      invariant settling != null ==> fresh(settling) && settling.handling == spec.handling.value && settling.View() == x.gate
      invariant guard.View() == x.guard
    {
      assert ticks[..k + 1][..k] == ticks[..k];
      x := Pass(spec, startNs, reference, x, ticks[k], paired, settling, guard);
      assert x == Run(spec, startNs, reference, armed, ticks[..k + 1]);
      if !x.Live() {
        StoppedStays(spec, startNs, reference, armed, ticks, k + 1);
        return;
      }
    }
    assert ticks[..|ticks|] == ticks;
  }
}
