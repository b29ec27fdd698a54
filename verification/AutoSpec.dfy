/** The bounded diagnostic trajectory: the specification the native owner validates, the
    target it commands, and the Python forms of the same function of time. */
module AutoSpec {
  import opened Common
  import opened Quintic
  import opened Gluing
  import opened Sweep

  datatype ManualHandling = ManualHandling(
    hardSpeed: Vec8, speedPersistenceNs: nat, settleNs: nat, settleTimeoutNs: nat,
    settleSpeed: real, settleSpan: real)

  /** Per-motor limits in degrees, degrees per second and newton metres; the `Max` ranges
      are what the motor protocol can express. */
  datatype AutoMotor = AutoMotor(
    minDeg: real, maxDeg: real, tracking: real, speed: real, torque: real, excursion: real,
    positionMax: real, velocityMax: real, torqueMax: real)

  datatype AutoSpec = AutoSpec(
    waypoints: seq<Vec8>, handling: Option<ManualHandling>, motors: seq<AutoMotor>,
    amplitude: real, transition: real, hold: real, holdTest: real,
    maxAmplitude: real, maxSpeed: real, maxAcceleration: real,
    cycles: nat, rateHz: nat, enabledStatus: nat, disabledStatus: nat, temperature: nat,
    stateTimeoutNs: nat, trackingTimeoutNs: nat, shutdownTimeoutNs: nat, activeMotor: nat)
  {
    function Legs(): (n: nat)
      ensures n >= 1 || |waypoints| == 1
    {
      if waypoints == [] then 4 else |waypoints| - 1
    }

    function SweepSeconds(): real {
      hold + Start(cycles * Legs(), transition + hold)
    }

    function Duration(holdOnly: bool): real {
      if holdOnly then holdTest else SweepSeconds()
    }

    predicate ValidMotor(m: AutoMotor) {
      && m.positionMax > 0.0 && m.velocityMax > 0.0 && m.torqueMax > 0.0
      && m.minDeg < m.maxDeg && m.tracking > 0.0 && m.speed > 0.0 && 0.0 < m.torque <= m.torqueMax
      && m.excursion > 0.0 && Abs(m.minDeg) <= m.positionMax && Abs(m.maxDeg) <= m.positionMax
    }

    predicate ValidTiming() {
      && amplitude > 0.0 && transition > 0.0 && hold > 0.0 && holdTest > 0.0
      && maxAmplitude > 0.0 && maxSpeed > 0.0 && maxAcceleration > 0.0
      && cycles > 0 && rateHz > 0 && stateTimeoutNs > 0 && trackingTimeoutNs > 0 && shutdownTimeoutNs > 0
      && enabledStatus <= 15 && disabledStatus <= 15 && enabledStatus != disabledStatus && 0 < temperature <= 255
      && amplitude <= maxAmplitude
      && SegmentFits(amplitude)
      && 1_000_000_000.0 / rateHz as real < stateTimeoutNs as real
    }

    /** The analytic speed and acceleration of a leg of this length, against the budgets. */
    predicate SegmentFits(distance: real)
      requires transition > 0.0
    {
      1.875 * distance / transition <= maxSpeed && AccelerationFits(distance, transition, maxAcceleration)
    }

    predicate ValidWaypoint(p: nat, i: nat)
      requires p < |waypoints| && i < 8 && |motors| == 8 && transition > 0.0
    {
      var v := waypoints[p][i];
      && Abs(v) <= amplitude && Abs(v) <= motors[i].excursion
      && (p == 0 || p + 1 == |waypoints| || i == 7 ==> v == 0.0)
      && (p > 0 ==> SegmentFits(Abs(v - waypoints[p - 1][i])))
    }

    predicate Moves(i: nat)
      requires i < 8
    {
      exists p :: 0 <= p < |waypoints| && waypoints[p][i] != 0.0
    }

    predicate ValidPath()
      requires |motors| == 8 && transition > 0.0
    {
      if waypoints == [] then
        (activeMotor == 3 || activeMotor == 5 || activeMotor == 6) && amplitude <= motors[activeMotor].excursion
      else
        && activeMotor == 8 && 3 <= |waypoints| <= 64 && handling == None
        && (forall p, i :: 0 <= p < |waypoints| && 0 <= i < 8 ==> ValidWaypoint(p, i))
        && exists i, j :: 0 <= i < j < 8 && Moves(i) && Moves(j)
    }

    predicate ValidHandling(h: ManualHandling)
      requires |motors| == 8
    {
      && 0 < h.speedPersistenceNs <= trackingTimeoutNs
      && h.settleNs > stateTimeoutNs && h.settleTimeoutNs > h.settleNs
      && h.settleSpeed > 0.0 && h.settleSpan > 0.0
      && forall i :: 0 <= i < 8 ==>
           && motors[i].speed <= h.hardSpeed[i] <= motors[i].velocityMax && h.hardSpeed[i] > 0.0
           && h.settleSpeed < motors[i].speed && h.settleSpan < motors[i].tracking
           && h.settleSpan > 4.0 * motors[i].positionMax / 65535.0
    }

    /** What `validate` lets through, as far as motion, guards and timing depend on it. */
    predicate Valid() {
      && |motors| == 8 && ValidTiming() && (forall m :: m in motors ==> ValidMotor(m)) && ValidPath()
      && (handling.Some? ==> ValidHandling(handling.value))
    }

    /** The checks `set_reference` makes on a measured starting position. */
    predicate AcceptsReference(q: Vec8)
      requires |motors| == 8 && (waypoints == [] ==> activeMotor < 8)
    {
      && (forall i :: 0 <= i < 8 ==> motors[i].minDeg <= q[i] <= motors[i].maxDeg)
      && if waypoints == [] then
           motors[activeMotor].minDeg <= q[activeMotor] - amplitude && q[activeMotor] + amplitude <= motors[activeMotor].maxDeg
         else
           forall p, i :: 0 <= p < |waypoints| && 0 <= i < 8 ==>
             motors[i].minDeg <= q[i] + waypoints[p][i] <= motors[i].maxDeg
    }

    // ----- the native target

    /** The signed wrist-style offset of the single active motor. */
    function Offset(seconds: real, holdOnly: bool): (r: Option<real>)
      requires transition > 0.0 && hold > 0.0
    {
      if seconds < 0.0 then None
      else if holdOnly || seconds <= hold || seconds >= SweepSeconds() then Some(0.0)
      else
        var t := seconds - hold;
        var segment := Index(transition + hold, t);
        var local := t - Start(segment, transition + hold);
        var starts := [0.0, amplitude, 0.0, -amplitude];
        var ends := [amplitude, 0.0, -amplitude, 0.0];
        var leg := segment % 4;
        var u := Least(1.0, local / transition);
        Some(Mix(starts[leg], ends[leg], Blend(u)))
    }

    /** The commanded position of every motor, or None for an invalid time. */
    function Target(reference: Vec8, seconds: real, holdOnly: bool): (r: Option<Vec8>)
      requires transition > 0.0 && hold > 0.0 && (waypoints == [] ==> activeMotor < 8) && |waypoints| != 1
    {
      if waypoints == [] then
        match Offset(seconds, holdOnly)
        case None => None
        case Some(offset) => Some(reference[activeMotor := reference[activeMotor] + offset])
      else if seconds < 0.0 then None
      else if holdOnly || seconds <= hold || seconds >= SweepSeconds() then Some(reference)
      else
        var t := seconds - hold;
        var segment := Index(transition + hold, t);
        var leg := segment % Legs();
        var u := Least(1.0, (t - Start(segment, transition + hold)) / transition);
        Some(Interpolate(reference, waypoints[leg], waypoints[leg + 1], Blend(u)))
    }
  }

  /** Part of the way from one offset to the next. */
  function Mix(from: real, to: real, blend: real): real { from + (to - from) * blend }

  function PerSecond(delta: real, rate: real, seconds: real): real
    requires seconds != 0.0
  {
    delta * rate / seconds
  }

  function PerSecondSquared(delta: real, bend: real, seconds: real): real
    requires seconds != 0.0
  {
    delta * bend / (seconds * seconds)
  }

  function Least(x: real, y: real): real { if y < x then y else x }

  function Interpolate(reference: Vec8, from: Vec8, to: Vec8, blend: real): (r: Vec8)
  {
    seq(8, i requires 0 <= i < 8 => reference[i] + Mix(from[i], to[i], blend))
  }

  // ----- the Python forms

  /** `path_offsets`: the single-motor sweep is the waypoint path (0, A, 0, -A, 0). */
  function PathOffsets(spec: AutoSpec): seq<Vec8>
    requires spec.waypoints == [] ==> spec.activeMotor < 8
  {
    if spec.waypoints != [] then spec.waypoints
    else [Alone(spec.activeMotor, 0.0), Alone(spec.activeMotor, spec.amplitude), Alone(spec.activeMotor, 0.0),
          Alone(spec.activeMotor, -spec.amplitude), Alone(spec.activeMotor, 0.0)]
  }

  function Alone(active: nat, value: real): Vec8
    requires active < 8
  {
    seq(8, i requires 0 <= i < 8 => if i == active then value else 0.0)
  }

  /** `target_offsets`: what every motor moves by, or None for an invalid time. */
  function TargetOffsets(spec: AutoSpec, seconds: real, holdOnly: bool): Option<Vec8>
    requires spec.transition > 0.0 && spec.hold > 0.0 && (spec.waypoints == [] ==> spec.activeMotor < 8) && |spec.waypoints| != 1
  {
    var points := PathOffsets(spec);
    var period := spec.transition + spec.hold;
    if seconds < 0.0 then None
    else if holdOnly || seconds <= spec.hold || seconds >= spec.hold + Start(spec.cycles * (|points| - 1), period) then
      Some(Interpolate(Alone(0, 0.0), Alone(0, 0.0), Alone(0, 0.0), 0.0))
    else
      var segment := Index(period, seconds - spec.hold);
      var local := seconds - spec.hold - Start(segment, period);
      var leg := segment % (|points| - 1);
      var u := Least(1.0, local / spec.transition);
      Some(Interpolate(Alone(0, 0.0), points[leg], points[leg + 1], Blend(u)))
  }

  /** The explicit parameters of a wrist sweep, in whole nanoseconds. */
  datatype SweepSpec = SweepSpec(amplitude: real, transitionNs: nat, holdNs: nat, cycles: nat, maxSpeed: real, maxAcceleration: real) {
    function Seconds(): real { transitionNs as real / 1_000_000_000.0 }

    predicate Valid() {
      && amplitude > 0.0 && maxSpeed > 0.0 && maxAcceleration > 0.0 && transitionNs > 0 && holdNs > 0 && cycles > 0
      && 1.875 * amplitude / Seconds() <= maxSpeed && AccelerationFits(amplitude, Seconds(), maxAcceleration)
    }

    function DurationNs(): nat { holdNs + 4 * cycles * (transitionNs + holdNs) }
  }

  datatype SweepPoint = SweepPoint(offset: real, velocity: real, acceleration: real)

  /** `WristSweep.at`: offset, velocity and acceleration of the active joint. */
  function WristAt(spec: SweepSpec, relativeNs: nat): Option<SweepPoint>
    requires spec.transitionNs > 0 && spec.holdNs > 0
  {
    if relativeNs > spec.DurationNs() then None
    else if relativeNs == spec.DurationNs() || relativeNs < spec.holdNs then Some(SweepPoint(0.0, 0.0, 0.0))
    else
      var period := spec.transitionNs + spec.holdNs;
      var segment := (relativeNs - spec.holdNs) / period;
      var local := (relativeNs - spec.holdNs) % period;
      var starts := [0.0, spec.amplitude, 0.0, -spec.amplitude];
      var ends := [spec.amplitude, 0.0, -spec.amplitude, 0.0];
      var leg := segment % 4;
      if local < spec.transitionNs then
        var u := local as real / spec.transitionNs as real;
        var delta := ends[leg] - starts[leg];
        var seconds := spec.Seconds();
        Some(SweepPoint(Mix(starts[leg], ends[leg], Blend(u)), PerSecond(delta, BlendRate(u), seconds),
                        PerSecondSquared(delta, BlendBend(u), seconds)))
      else Some(SweepPoint(ends[leg], 0.0, 0.0))
  }
}
