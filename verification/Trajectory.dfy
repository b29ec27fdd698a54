/** What validation buys: every accepted specification commands targets that respect the
    speed budget between any two times and, from an accepted reference, every motor bound;
    and the native, Python and nanosecond forms are one function of time. */
module Trajectory {
  import opened Common
  import opened Quintic
  import opened Gluing
  import opened Segment
  import opened Sweep
  import opened AutoSpec

  /** Motor i's share of the path. */
  function MotorPath(spec: AutoSpec, i: nat): Path
    requires i < 8 && (spec.waypoints == [] ==> spec.activeMotor < 8)
  {
    var points := PathOffsets(spec);
    Path(seq(|points|, p requires 0 <= p < |points| => points[p][i]), spec.transition, spec.hold, spec.cycles)
  }

  lemma DivisionFits(distance: real, transition: real, speed: real)
    requires transition > 0.0 && distance >= 0.0 && 1.875 * distance / transition <= speed
    ensures 1.875 * distance <= speed * transition && speed >= 0.0
  {
    DivisionOrder(1.875 * distance, transition, speed);
    Unscale(0.0, 1.875 * distance, transition);
    Quotient(0.0, transition);
  }

  /** An accepted specification gives every motor a closed path within its excursion, and
      every leg of it within the speed and acceleration budgets. */
  lemma ValidMotorPath(spec: AutoSpec, i: nat)
    requires spec.Valid() && i < 8
    ensures var p := MotorPath(spec, i);
      && p.Valid() && p.Legs() == spec.Legs() && p.Duration() == spec.SweepSeconds()
      && SpeedBudget(p, spec.maxSpeed) && AccelerationBudget(p, spec.maxAcceleration)
      && forall k :: 0 <= k < |p.points| ==> Abs(p.points[k]) <= spec.amplitude && Abs(p.points[k]) <= spec.motors[i].excursion
  {
    hide MotorPath, SpeedBudget, AccelerationBudget;
    MotorPoints(spec, i);
    LegBudgets(spec, i);
  }

  lemma LegBudgets(spec: AutoSpec, i: nat)
    requires spec.Valid() && i < 8 && MotorPath(spec, i).Valid()
    ensures SpeedBudget(MotorPath(spec, i), spec.maxSpeed) && AccelerationBudget(MotorPath(spec, i), spec.maxAcceleration)
  {
    hide MotorPath, AccelerationFits, Path.Valid, Path.Delta, Abs;
    MotorPoints(spec, i);
    var p := MotorPath(spec, i);
    forall n: nat
      ensures 1.875 * Abs(p.Delta(n)) <= spec.maxSpeed * p.transition
      ensures AccelerationFits(p.Delta(n), p.transition, spec.maxAcceleration)
    {
      LegFits(spec, i, n);
    }
  }

  lemma MotorPoints(spec: AutoSpec, i: nat)
    requires spec.Valid() && i < 8
    ensures var p := MotorPath(spec, i);
      && p.Valid() && p.Legs() == spec.Legs() && p.Duration() == spec.SweepSeconds()
      && p.transition == spec.transition && spec.maxSpeed >= 0.0 && spec.maxAcceleration > 0.0
      && forall k :: 0 <= k < |p.points| ==> Abs(p.points[k]) <= spec.amplitude && Abs(p.points[k]) <= spec.motors[i].excursion
  {
    hide AccelerationFits, Start;
    var p := MotorPath(spec, i);
    DivisionFits(spec.amplitude, spec.transition, spec.maxSpeed);
    assert spec.ValidMotor(spec.motors[i]);
    if spec.waypoints != [] {
      assert spec.ValidWaypoint(0, i) && spec.ValidWaypoint(|spec.waypoints| - 1, i);
      forall k | 0 <= k < |p.points|
        ensures Abs(p.points[k]) <= spec.amplitude && Abs(p.points[k]) <= spec.motors[i].excursion
      {
        assert spec.ValidWaypoint(k, i);
      }
    }
  }

  lemma LegFits(spec: AutoSpec, i: nat, n: nat)
    requires spec.Valid() && i < 8 && MotorPath(spec, i).Valid()
    ensures var p := MotorPath(spec, i);
      1.875 * Abs(p.Delta(n)) <= spec.maxSpeed * p.transition && AccelerationFits(p.Delta(n), p.transition, spec.maxAcceleration)
  {
    if spec.waypoints == [] { SingleLegFits(spec, i, n); } else { WaypointLegFits(spec, i, n); }
  }

  lemma SingleLegFits(spec: AutoSpec, i: nat, n: nat)
    requires spec.Valid() && i < 8 && MotorPath(spec, i).Valid() && spec.waypoints == []
    ensures var p := MotorPath(spec, i);
      1.875 * Abs(p.Delta(n)) <= spec.maxSpeed * p.transition && AccelerationFits(p.Delta(n), p.transition, spec.maxAcceleration)
  {
    hide AccelerationFits;
    var p := MotorPath(spec, i);
    DivisionFits(spec.amplitude, spec.transition, spec.maxSpeed);
    assert Abs(p.Delta(n)) == spec.amplitude || p.Delta(n) == 0.0;
    AccelerationFitsSymmetric(spec.amplitude, spec.transition, spec.maxAcceleration);
    AccelerationFitsZero(spec.transition, spec.maxAcceleration);
  }

  lemma WaypointLegFits(spec: AutoSpec, i: nat, n: nat)
    requires spec.Valid() && i < 8 && MotorPath(spec, i).Valid() && spec.waypoints != []
    ensures var p := MotorPath(spec, i);
      1.875 * Abs(p.Delta(n)) <= spec.maxSpeed * p.transition && AccelerationFits(p.Delta(n), p.transition, spec.maxAcceleration)
  {
    hide AccelerationFits;
    var p := MotorPath(spec, i);
    assert spec.ValidWaypoint(n % p.Legs() + 1, i);
    var distance := Abs(p.Delta(n));
    DivisionFits(distance, spec.transition, spec.maxSpeed);
    AccelerationFitsSymmetric(distance, spec.transition, spec.maxAcceleration);
  }

  lemma AccelerationFitsSymmetric(d: real, transition: real, acceleration: real)
    ensures AccelerationFits(d, transition, acceleration) == AccelerationFits(-d, transition, acceleration)
  {
    assert (-d) * (-d) == d * d;
  }

  lemma AccelerationFitsZero(transition: real, acceleration: real)
    ensures AccelerationFits(0.0, transition, acceleration)
  {
    Square(acceleration * (transition * transition));
  }

  // ----- one function of time

  lemma LeastIsProgress(transition: real, x: real)
    requires transition > 0.0
    ensures Least(1.0, x / transition) == Progress(transition, x)
  {
    QuotientOrder(x / transition, 1.0, transition);
    QuotientOrder(1.0, x / transition, transition);
    Quotient(x, transition);
  }

  lemma LegValue(p: Path, t: real)
    requires p.Valid() && p.Moving(t)
    ensures var n := Index(p.Period(), t - p.hold);
            var u := Least(1.0, (t - p.hold - Start(n, p.Period())) / p.transition);
      p.Offset(t) == Mix(p.points[n % p.Legs()], p.points[n % p.Legs() + 1], Blend(u))
  {
    hide Blend, Start;
    var n := Index(p.Period(), t - p.hold);
    LeastIsProgress(p.transition, t - p.hold - Start(n, p.Period()));
  }

  /** The native target moves motor i by its path, whichever way the path was specified. */
  lemma TargetFollowsPath(spec: AutoSpec, reference: Vec8, t: real, i: nat)
    requires spec.Valid() && t >= 0.0 && i < 8
    ensures MotorPath(spec, i).Valid() && spec.Target(reference, t, false).Some?
    ensures spec.Target(reference, t, false).value[i] == reference[i] + MotorPath(spec, i).Offset(t)
  {
    hide Start, AccelerationFits, Blend;
    ValidMotorPath(spec, i);
    if !MotorPath(spec, i).Moving(t) {
    } else if spec.waypoints == [] {
      SingleMotorMoves(spec, reference, t, i);
    } else {
      WaypointsMove(spec, reference, t, i);
    }
  }

  lemma WaypointsMove(spec: AutoSpec, reference: Vec8, t: real, i: nat)
    requires spec.Valid() && t >= 0.0 && i < 8 && spec.waypoints != []
    requires MotorPath(spec, i).Valid() && MotorPath(spec, i).Moving(t)
    ensures spec.Target(reference, t, false).Some?
    ensures spec.Target(reference, t, false).value[i] == reference[i] + MotorPath(spec, i).Offset(t)
  {
    hide Start, AccelerationFits;
    LegValue(MotorPath(spec, i), t);
  }

  lemma SingleMotorMoves(spec: AutoSpec, reference: Vec8, t: real, i: nat)
    requires spec.Valid() && t >= 0.0 && i < 8 && spec.waypoints == []
    requires MotorPath(spec, i).Valid() && MotorPath(spec, i).Moving(t)
    ensures spec.Target(reference, t, false).Some?
    ensures spec.Target(reference, t, false).value[i] == reference[i] + MotorPath(spec, i).Offset(t)
  {
    hide Start, AccelerationFits, Blend;
    var p := MotorPath(spec, i);
    LegValue(p, t);
    if i == spec.activeMotor {
      ActiveOffset(spec, t);
    } else {
      var n := Index(p.Period(), t - p.hold);
      assert p.points[n % p.Legs()] == 0.0 && p.points[n % p.Legs() + 1] == 0.0;
    }
  }

  lemma ActiveOffset(spec: AutoSpec, t: real)
    requires spec.Valid() && t >= 0.0 && spec.waypoints == []
    requires MotorPath(spec, spec.activeMotor).Valid() && MotorPath(spec, spec.activeMotor).Moving(t)
    ensures spec.Offset(t, false) == Some(MotorPath(spec, spec.activeMotor).Offset(t))
  {
    hide Start, AccelerationFits, Blend, MotorPath, PathOffsets, Mix;
    ActivePath(spec);
    ActiveLeg(MotorPath(spec, spec.activeMotor), spec.amplitude, t);
  }

  lemma ActivePath(spec: AutoSpec)
    requires spec.activeMotor < 8 && spec.waypoints == []
    ensures MotorPath(spec, spec.activeMotor)
         == Path([0.0, spec.amplitude, 0.0, -spec.amplitude, 0.0], spec.transition, spec.hold, spec.cycles)
  {}

  lemma ActiveLeg(p: Path, a: real, t: real)
    requires p.Valid() && p.Moving(t) && p.points == [0.0, a, 0.0, -a, 0.0]
    ensures var n := Index(p.Period(), t - p.hold);
            var u := Least(1.0, (t - p.hold - Start(n, p.Period())) / p.transition);
            var start, end := [0.0, a, 0.0, -a][n % 4], [a, 0.0, -a, 0.0][n % 4];
      p.Offset(t) == Mix(start, end, Blend(u))
  {
    hide Start, Blend;
    LegValue(p, t);
    FourLegs(p, a, Index(p.Period(), t - p.hold) % 4);
  }

  lemma FourLegs(p: Path, a: real, leg: nat)
    requires leg < 4 && p.points == [0.0, a, 0.0, -a, 0.0]
    ensures p.points[leg] == [0.0, a, 0.0, -a][leg] && p.points[leg + 1] == [a, 0.0, -a, 0.0][leg]
  {}

  /** Holding, or before and after the sweep, the target is the reference itself. */
  lemma TargetHolds(spec: AutoSpec, reference: Vec8, t: real)
    requires spec.Valid() && t >= 0.0
    ensures spec.Target(reference, t, true) == Some(reference)
    ensures t <= spec.hold || t >= spec.SweepSeconds() ==> spec.Target(reference, t, false) == Some(reference)
    ensures forall s :: s < 0.0 ==> spec.Target(reference, s, false) == None
  {
    hide Start, AccelerationFits;
    if spec.waypoints == [] { assert reference[spec.activeMotor := reference[spec.activeMotor] + 0.0] == reference; }
  }

  lemma PythonFollowsPath(spec: AutoSpec, t: real, i: nat)
    requires spec.Valid() && t >= 0.0 && i < 8
    ensures MotorPath(spec, i).Valid()
    ensures TargetOffsets(spec, t, false).Some? && TargetOffsets(spec, t, false).value[i] == MotorPath(spec, i).Offset(t)
    ensures TargetOffsets(spec, t, true).Some? && TargetOffsets(spec, t, true).value[i] == 0.0
  {
    hide Start, AccelerationFits, Blend;
    ValidMotorPath(spec, i);
    var p := MotorPath(spec, i);
    assert p.Duration() == spec.hold + Start(spec.cycles * (|PathOffsets(spec)| - 1), spec.transition + spec.hold);
    if p.Moving(t) { LegValue(p, t); }
  }

  /** The Python offsets are the native target relative to its reference. */
  lemma PythonAgreesWithNative(spec: AutoSpec, reference: Vec8, t: real, holdOnly: bool, i: nat)
    requires spec.Valid() && i < 8
    ensures TargetOffsets(spec, t, holdOnly).Some? <==> t >= 0.0
    ensures spec.Target(reference, t, holdOnly).Some? <==> t >= 0.0
    ensures t >= 0.0 ==> spec.Target(reference, t, holdOnly).value[i] == reference[i] + TargetOffsets(spec, t, holdOnly).value[i]
  {
    if t >= 0.0 {
      hide *;
      TargetFollowsPath(spec, reference, t, i);
      TargetHolds(spec, reference, t);
      PythonFollowsPath(spec, t, i);
    }
  }

  // ----- the nanosecond form

  function NanoSeconds(ns: nat): real { ns as real / 1_000_000_000.0 }

  function WristPath(spec: SweepSpec): Path {
    Path([0.0, spec.amplitude, 0.0, -spec.amplitude, 0.0], spec.Seconds(), NanoSeconds(spec.holdNs), spec.cycles)
  }

  /** Whole nanoseconds divide like real seconds. */
  lemma NanoIndex(period: nat, ns: nat)
    requires period > 0
    ensures NanoSeconds(period) > 0.0 && NanoSeconds(ns) >= 0.0
    ensures Index(NanoSeconds(period), NanoSeconds(ns)) == ns / period
    ensures NanoSeconds(ns) - Start(ns / period, NanoSeconds(period)) == NanoSeconds(ns % period)
  {
    var q, r := ns / period, ns % period;
    assert ns == q * period + r;
    NanoProduct(q, period);
    NanoProduct(q + 1, period);
    assert (q + 1) * period == q * period + period;
    NanoOrder(q * period, ns);
    NanoOrder(ns, (q + 1) * period);
    IndexUnique(NanoSeconds(period), NanoSeconds(ns), q);
  }

  lemma NanoProduct(q: nat, period: nat)
    ensures Start(q, NanoSeconds(period)) == NanoSeconds(q * period)
  {
    assert (q * period) as real == q as real * period as real;
    Distributes(q as real, period as real);
  }

  lemma Distributes(a: real, b: real)
    ensures a * (b / 1_000_000_000.0) == a * b / 1_000_000_000.0
  {}

  lemma NanoOrder(a: nat, b: nat)
    ensures a < b <==> NanoSeconds(a) < NanoSeconds(b)
    ensures a == b <==> NanoSeconds(a) == NanoSeconds(b)
    ensures NanoSeconds(a + b) == NanoSeconds(a) + NanoSeconds(b)
  {}

  lemma NanoRatio(a: nat, b: nat)
    requires b > 0
    ensures NanoSeconds(a) / NanoSeconds(b) == a as real / b as real
  {
    var q := a as real / b as real;
    Quotient(a as real, b as real);
    assert q * NanoSeconds(b) == NanoSeconds(a);
    QuotientIs(q, NanoSeconds(a), NanoSeconds(b));
  }

  lemma QuotientIs(q: real, x: real, y: real)
    requires y > 0.0 && q * y == x
    ensures x / y == q
  {
    Quotient(x, y);
    QuotientOrder(x / y, q, y);
    QuotientOrder(q, x / y, y);
  }

  lemma WristDuration(spec: SweepSpec)
    requires spec.Valid()
    ensures WristPath(spec).Valid() && WristPath(spec).Legs() == 4
    ensures WristPath(spec).Duration() == NanoSeconds(spec.DurationNs())
    ensures WristPath(spec).Period() == NanoSeconds(spec.transitionNs + spec.holdNs)
  {
    hide AccelerationFits;
    NanoOrder(0, spec.transitionNs);
    NanoOrder(0, spec.holdNs);
    NanoOrder(spec.transitionNs, spec.holdNs);
    NanoProduct(spec.cycles * 4, spec.transitionNs + spec.holdNs);
    NanoOrder(spec.holdNs, spec.cycles * 4 * (spec.transitionNs + spec.holdNs));
  }

  /** The wrist sweep rejects exactly the times past its end, and otherwise reports the
      path's offset, its velocity and its acceleration at that time in seconds. */
  lemma WristFollowsPath(spec: SweepSpec, ns: nat)
    requires spec.Valid()
    ensures WristAt(spec, ns).None? <==> ns > spec.DurationNs()
    ensures ns <= spec.DurationNs() ==>
      var p, t := WristPath(spec), NanoSeconds(ns);
      p.Valid() && WristAt(spec, ns) == Some(SweepPoint(p.Offset(t), p.Velocity(t), p.Acceleration(t)))
  {
    hide AccelerationFits, Start;
    WristDuration(spec);
    var p, t := WristPath(spec), NanoSeconds(ns);
    NanoOrder(ns, spec.DurationNs());
    NanoOrder(spec.DurationNs(), ns);
    NanoOrder(ns, spec.holdNs);
    NanoOrder(spec.holdNs, ns);
    if spec.holdNs < ns < spec.DurationNs() {
      WristMoving(spec, ns);
    } else if ns == spec.holdNs {
      WristStart(spec, ns);
    }
  }

  lemma WristStart(spec: SweepSpec, ns: nat)
    requires spec.Valid() && ns == spec.holdNs < spec.DurationNs()
    ensures WristAt(spec, ns) == Some(SweepPoint(0.0, 0.0, 0.0))
  {
    var seconds := spec.Seconds();
    var u := 0 as real / spec.transitionNs as real;
    QuotientIs(0.0, 0 as real, spec.transitionNs as real);
    QuotientIs(0.0, 0.0, seconds);
    QuotientIs(0.0, 0.0, seconds * seconds);
  }

  lemma MoveDivision(d: real, v: real, s: real)
    requires s > 0.0
    ensures PerSecond(d, v, s) == d / s * v
  {
    Quotient(d, s);
    assert d / s * v * s == d / s * s * v;
    QuotientIs(d / s * v, d * v, s);
  }

  lemma MoveTwoDivisions(d: real, v: real, s: real)
    requires s > 0.0
    ensures PerSecondSquared(d, v, s) == d / s / s * v
  {
    var square, q := s * s, d / s / s;
    SquarePositive(s, square);
    Quotient(d, s);
    Quotient(d / s, s);
    assert q * v * square == q * s * s * v;
    QuotientIs(q * v, d * v, square);
  }

  lemma WristAtLeg(spec: SweepSpec, ns: nat, n: nat, local: nat)
    requires spec.Valid() && spec.holdNs < ns < spec.DurationNs() && WristPath(spec).Valid()
    requires n == (ns - spec.holdNs) / (spec.transitionNs + spec.holdNs)
    requires local == (ns - spec.holdNs) % (spec.transitionNs + spec.holdNs)
    ensures var p, seconds, u := WristPath(spec), spec.Seconds(), local as real / spec.transitionNs as real;
      seconds > 0.0 && WristAt(spec, ns) == Some(
        if local < spec.transitionNs then
          SweepPoint(Mix(p.points[n % 4], p.points[n % 4 + 1], Blend(u)), PerSecond(p.Delta(n), BlendRate(u), seconds),
                     PerSecondSquared(p.Delta(n), BlendBend(u), seconds))
        else SweepPoint(p.points[n % 4 + 1], 0.0, 0.0))
  {
    hide AccelerationFits, Start, Blend, BlendRate, BlendBend, Mix, PerSecond, PerSecondSquared;
    FourLegs(WristPath(spec), spec.amplitude, n % 4);
  }

  lemma WristMoving(spec: SweepSpec, ns: nat)
    requires spec.Valid() && spec.holdNs < ns < spec.DurationNs()
    ensures var p, t := WristPath(spec), NanoSeconds(ns);
      p.Valid() && p.Moving(t) && WristAt(spec, ns) == Some(SweepPoint(p.Offset(t), p.Velocity(t), p.Acceleration(t)))
  {
    hide AccelerationFits, Start, Blend, BlendRate, BlendBend, Scaled, WristAt, Mix, PerSecond, PerSecondSquared;
    WristDuration(spec);
    var p, t := WristPath(spec), NanoSeconds(ns);
    NanoOrder(ns, spec.DurationNs());
    NanoOrder(spec.holdNs, ns);
    var period, past := spec.transitionNs + spec.holdNs, ns - spec.holdNs;
    NanoOrder(spec.holdNs, past);
    NanoIndex(period, past);
    var n, local := past / period, past % period;
    assert p.Offset(t) == p.OffsetPiece(n, NanoSeconds(local));
    assert p.Velocity(t) == p.VelocityPiece(n, NanoSeconds(local));
    assert p.Acceleration(t) == p.AccelerationPiece(n, NanoSeconds(local));
    WristAtLeg(spec, ns, n, local);
    if local < spec.transitionNs { WristTransition(spec, n, local); } else { WristHold(spec, n, local); }
  }

  lemma WristHold(spec: SweepSpec, n: nat, local: nat)
    requires spec.Valid() && WristPath(spec).Valid() && local >= spec.transitionNs
    ensures var p, x := WristPath(spec), NanoSeconds(local);
      p.OffsetPiece(n, x) == p.points[n % 4 + 1] && p.VelocityPiece(n, x) == 0.0 && p.AccelerationPiece(n, x) == 0.0
  {
    hide AccelerationFits, Start, Blend, BlendRate, BlendBend;
    NanoOrder(local, spec.transitionNs);
    BlendFinishes(); RateFinishes(); BendFinishes();
  }

  lemma WristProgress(spec: SweepSpec, local: nat)
    requires spec.Valid() && local < spec.transitionNs
    ensures spec.Seconds() > 0.0
    ensures Progress(spec.Seconds(), NanoSeconds(local)) == local as real / spec.transitionNs as real
  {
    hide AccelerationFits;
    NanoOrder(local, spec.transitionNs);
    NanoRatio(local, spec.transitionNs);
    SecondsAreNano(spec);
  }

  lemma WristTransition(spec: SweepSpec, n: nat, local: nat)
    requires spec.Valid() && WristPath(spec).Valid() && local < spec.transitionNs
    ensures var p, x, seconds := WristPath(spec), NanoSeconds(local), spec.Seconds();
            var delta, u := p.Delta(n), local as real / spec.transitionNs as real;
      && seconds > 0.0
      && p.OffsetPiece(n, x) == Mix(p.points[n % 4], p.points[n % 4 + 1], Blend(u))
      && p.VelocityPiece(n, x) == PerSecond(delta, BlendRate(u), seconds)
      && p.AccelerationPiece(n, x) == PerSecondSquared(delta, BlendBend(u), seconds)
  {
    hide AccelerationFits, Start, Blend, BlendRate, BlendBend, NanoSeconds, Progress, Mix, PerSecond, PerSecondSquared;
    WristProgress(spec, local);
    var seconds := spec.Seconds();
    TransitionPieces(WristPath(spec), n, NanoSeconds(local), local as real / spec.transitionNs as real, seconds);
    hide WristPath;
  }

  /** The three pieces of a leg, written out the way the wrist sweep does. */
  lemma TransitionPieces(p: Path, n: nat, x: real, u: real, seconds: real)
    requires p.Valid() && p.transition == seconds && Progress(seconds, x) == u
    ensures p.OffsetPiece(n, x) == Mix(p.points[n % p.Legs()], p.points[n % p.Legs() + 1], Blend(u))
    ensures p.VelocityPiece(n, x) == PerSecond(p.Delta(n), BlendRate(u), seconds)
    ensures p.AccelerationPiece(n, x) == PerSecondSquared(p.Delta(n), BlendBend(u), seconds)
  {
    hide Blend, BlendRate, BlendBend, Progress, PerSecond, PerSecondSquared;
    var delta := p.Delta(n);
    MoveDivision(delta, BlendRate(u), seconds);
    MoveTwoDivisions(delta, BlendBend(u), seconds);
  }

  lemma SecondsAreNano(spec: SweepSpec)
    ensures spec.Seconds() == NanoSeconds(spec.transitionNs)
  {}

  // ----- what validation buys

  /** Between any two times, no motor's target moves faster than the reference budget. */
  lemma TargetSpeedLimit(spec: AutoSpec, reference: Vec8, a: real, b: real, i: nat)
    requires spec.Valid() && 0.0 <= a <= b && i < 8
    ensures spec.Target(reference, a, false).Some? && spec.Target(reference, b, false).Some?
    ensures Within(spec.Target(reference, b, false).value[i] - spec.Target(reference, a, false).value[i], spec.maxSpeed, b - a)
  {
    var p := MotorPath(spec, i);
    hide AccelerationFits, MotorPath, Start, Blend;
    ValidMotorPath(spec, i);
    hide *;
    TargetFollowsPath(spec, reference, a, i);
    TargetFollowsPath(spec, reference, b, i);
    SpeedLimit(p, spec.maxSpeed, a, b);
    SameDifference(reference[i], p.Offset(a), p.Offset(b));
  }

  lemma SameDifference(r: real, x: real, y: real)
    ensures (r + y) - (r + x) == y - x
  {}

  /** The path really passes through each of its points. */
  lemma PathVisits(p: Path, k: nat) returns (t: real)
    requires p.Valid() && k < |p.points|
    ensures t >= 0.0 && p.Offset(t) == p.points[k]
  {
    hide Start, Blend, Scaled;
    DurationExceedsHold(p);
    var n := if k < p.Legs() then k else 0;
    t := p.hold + Start(n, p.Period());
    PiecesJoin(p);
    NextStart(0, p.Period());
    StartOrder(0, n, p.Period());
    AtLeastOnce(p.cycles, p.Legs());
    StartOrder(n, p.cycles * p.Legs(), p.Period());
    AtInside(p, p.Offsets(), t);
    AtBoundary(p.Offsets(), p.Period(), n);
    Remainder(n, 0, p.Legs(), n);
    StartOfLeg(p, n);
  }

  lemma StartOfLeg(p: Path, n: nat)
    requires p.Valid()
    ensures p.OffsetPiece(n, 0.0) == p.points[n % p.Legs()]
  {
    hide Blend;
    BlendStarts();
    assert Progress(p.transition, 0.0) == 0.0;
  }

  ghost predicate InsideBounds(spec: AutoSpec, reference: Vec8, t: real, holdOnly: bool)
    requires spec.Valid()
  {
    var target := spec.Target(reference, t, holdOnly);
    target.Some? ==> forall i :: 0 <= i < 8 ==> spec.motors[i].minDeg <= target.value[i] <= spec.motors[i].maxDeg
  }

  /** Per motor, `set_reference` asks that every point of its path stays in bounds. */
  lemma AcceptedPerMotor(spec: AutoSpec, q: Vec8)
    requires spec.Valid()
    ensures spec.AcceptsReference(q) <==> forall i :: 0 <= i < 8 ==> MotorAccepts(spec, q, i)
  {
    hide AccelerationFits;
    if spec.AcceptsReference(q) {
      forall i | 0 <= i < 8 ensures MotorAccepts(spec, q, i) {}
    }
    if forall i :: 0 <= i < 8 ==> MotorAccepts(spec, q, i) {
      AcceptedFromMotors(spec, q);
    }
  }

  ghost predicate MotorAccepts(spec: AutoSpec, q: Vec8, i: nat)
    requires spec.Valid() && i < 8
  {
    var p, m := MotorPath(spec, i), spec.motors[i];
    forall k :: 0 <= k < |p.points| ==> m.minDeg <= q[i] + p.points[k] <= m.maxDeg
  }

  lemma AcceptedFromMotors(spec: AutoSpec, q: Vec8)
    requires spec.Valid() && forall i :: 0 <= i < 8 ==> MotorAccepts(spec, q, i)
    ensures spec.AcceptsReference(q)
  {
    hide AccelerationFits;
    forall i | 0 <= i < 8 ensures spec.motors[i].minDeg <= q[i] <= spec.motors[i].maxDeg {
      ValidMotorPath(spec, i);
      assert MotorAccepts(spec, q, i) && MotorPath(spec, i).points[0] == 0.0;
    }
    if spec.waypoints == [] {
      var a := spec.activeMotor;
      assert MotorAccepts(spec, q, a) && MotorPath(spec, a).points[1] == spec.amplitude && MotorPath(spec, a).points[3] == -spec.amplitude;
    } else {
      forall p, i | 0 <= p < |spec.waypoints| && 0 <= i < 8
        ensures spec.motors[i].minDeg <= q[i] + spec.waypoints[p][i] <= spec.motors[i].maxDeg
      {
        assert MotorAccepts(spec, q, i) && MotorPath(spec, i).points[p] == spec.waypoints[p][i];
      }
    }
  }

  lemma MotorInside(spec: AutoSpec, q: Vec8, i: nat, t: real)
    requires spec.Valid() && i < 8 && t >= 0.0 && MotorAccepts(spec, q, i)
    ensures spec.Target(q, t, false).Some?
    ensures spec.motors[i].minDeg <= spec.Target(q, t, false).value[i] <= spec.motors[i].maxDeg
    ensures Abs(spec.Target(q, t, false).value[i] - q[i]) <= spec.motors[i].excursion
  {
    ValidMotorPath(spec, i);
    var p, m := MotorPath(spec, i), spec.motors[i];
    assert forall k :: 0 <= k < |p.points| ==> m.minDeg - q[i] <= p.points[k] <= m.maxDeg - q[i];
    hide *;
    TargetFollowsPath(spec, q, t, i);
    EnvelopeOfPoints(p, m.minDeg - q[i], m.maxDeg - q[i], t);
    ExcursionEnvelope(p, m.excursion, t);
    SameDifference(q[i], 0.0, p.Offset(t));
  }

  lemma ExcursionEnvelope(p: Path, excursion: real, t: real)
    requires p.Valid() && forall k :: 0 <= k < |p.points| ==> Abs(p.points[k]) <= excursion
    ensures Abs(p.Offset(t)) <= excursion && Abs(p.Offset(t) - 0.0) <= excursion
  {
    forall k | 0 <= k < |p.points| ensures -excursion <= p.points[k] <= excursion {
      assert Abs(p.points[k]) <= excursion;
    }
    EnvelopeOfPoints(p, -excursion, excursion, t);
  }

  /** `set_reference` accepts exactly the references from which every target, at every time
      and while holding, stays within every motor's bounds. */
  lemma AcceptedReferenceIsExact(spec: AutoSpec, q: Vec8)
    requires spec.Valid()
    ensures spec.AcceptsReference(q) <==> forall t: real, holdOnly: bool :: InsideBounds(spec, q, t, holdOnly)
  {
    hide AccelerationFits, Start, MotorPath;
    AcceptedPerMotor(spec, q);
    if spec.AcceptsReference(q) {
      forall t: real, holdOnly: bool ensures InsideBounds(spec, q, t, holdOnly) {
        AcceptedInside(spec, q, t, holdOnly);
      }
    } else {
      var i :| 0 <= i < 8 && !MotorAccepts(spec, q, i);
      RejectedLeaves(spec, q, i);
    }
  }

  lemma AcceptedInside(spec: AutoSpec, q: Vec8, t: real, holdOnly: bool)
    requires spec.Valid() && spec.AcceptsReference(q)
    ensures InsideBounds(spec, q, t, holdOnly)
    ensures t >= 0.0 ==> spec.Target(q, t, holdOnly).Some?
    ensures t >= 0.0 ==> forall i :: 0 <= i < 8 ==> Abs(spec.Target(q, t, holdOnly).value[i] - q[i]) <= spec.motors[i].excursion
  {
    hide AccelerationFits, Start, MotorPath;
    AcceptedPerMotor(spec, q);
    if t >= 0.0 {
      TargetHolds(spec, q, t);
      forall i | 0 <= i < 8
        ensures spec.Target(q, t, false).Some?
        ensures spec.motors[i].minDeg <= spec.Target(q, t, false).value[i] <= spec.motors[i].maxDeg
        ensures Abs(spec.Target(q, t, false).value[i] - q[i]) <= spec.motors[i].excursion
      {
        MotorInside(spec, q, i, t);
      }
      assert forall m :: m in spec.motors ==> spec.ValidMotor(m);
    } else {
      TargetHolds(spec, q, 0.0);
      PythonAgreesWithNative(spec, q, t, holdOnly, 0);
    }
  }

  lemma RejectedLeaves(spec: AutoSpec, q: Vec8, i: nat)
    requires spec.Valid() && i < 8 && !MotorAccepts(spec, q, i)
    ensures exists t: real :: !InsideBounds(spec, q, t, false)
  {
    hide AccelerationFits, Start;
    ValidMotorPath(spec, i);
    var p, m := MotorPath(spec, i), spec.motors[i];
    var k :| 0 <= k < |p.points| && !(m.minDeg <= q[i] + p.points[k] <= m.maxDeg);
    var t := PathVisits(p, k);
    TargetFollowsPath(spec, q, t, i);
    assert !InsideBounds(spec, q, t, false);
  }

  /** An accepted wrist sweep keeps its speed and acceleration budgets between any two
      nanosecond times, and its reported velocity is the derivative of its position. */
  lemma WristBudgets(spec: SweepSpec, early: nat, late: nat)
    requires spec.Valid() && early <= late <= spec.DurationNs()
    ensures WristAt(spec, early).Some? && WristAt(spec, late).Some?
    ensures var a, b, elapsed := WristAt(spec, early).value, WristAt(spec, late).value, NanoSeconds(late) - NanoSeconds(early);
      && Within(b.offset - a.offset, spec.maxSpeed, elapsed)
      && Within(b.velocity - a.velocity, spec.maxAcceleration, elapsed)
      && TangentWithin(a.offset, b.offset, a.velocity, elapsed, 3.0 * spec.maxAcceleration)
      && spec.Seconds() > 0.0
      && TangentWithin(a.velocity, b.velocity, a.acceleration, elapsed, JerkOf(spec.amplitude, spec.Seconds()))
      && Within(b.acceleration - a.acceleration, JerkOf(spec.amplitude, spec.Seconds()), elapsed)
      && Abs(a.offset) <= spec.amplitude
  {
    WristPathFits(spec);
    WristJerk(spec);
    NanoOrder(late, early);
    hide *;
    var p := WristPath(spec);
    WristFollowsPath(spec, early);
    WristFollowsPath(spec, late);
    SpeedLimit(p, spec.maxSpeed, NanoSeconds(early), NanoSeconds(late));
    AccelerationLimit(p, spec.maxAcceleration, NanoSeconds(early), NanoSeconds(late));
    VelocityIsDerivative(p, spec.maxAcceleration, NanoSeconds(early), NanoSeconds(late));
    AccelerationWithinJerk(p, JerkOf(spec.amplitude, spec.Seconds()), NanoSeconds(early), NanoSeconds(late));
    ExcursionEnvelope(p, spec.amplitude, NanoSeconds(early));
  }

  lemma WristPathFits(spec: SweepSpec)
    requires spec.Valid()
    ensures var p := WristPath(spec);
      && p.Valid() && SpeedBudget(p, spec.maxSpeed) && AccelerationBudget(p, spec.maxAcceleration)
      && forall k :: 0 <= k < |p.points| ==> Abs(p.points[k]) <= spec.amplitude
  {
    hide AccelerationFits;
    WristDuration(spec);
    var p := WristPath(spec);
    DivisionFits(spec.amplitude, spec.Seconds(), spec.maxSpeed);
    AccelerationFitsSymmetric(spec.amplitude, spec.Seconds(), spec.maxAcceleration);
    forall n: nat
      ensures 1.875 * Abs(p.Delta(n)) <= spec.maxSpeed * p.transition
      ensures AccelerationFits(p.Delta(n), p.transition, spec.maxAcceleration)
    {
      FourLegs(p, spec.amplitude, n % 4);
      assert Abs(p.Delta(n)) == spec.amplitude;
    }
  }

  lemma WristJerk(spec: SweepSpec)
    requires spec.Valid()
    ensures WristPath(spec).Valid() && WristPath(spec).transition == spec.Seconds() > 0.0
    ensures JerkBudget(WristPath(spec), JerkOf(spec.amplitude, spec.Seconds()))
  {
    hide JerkBudget, JerkOf, AccelerationFits;
    WristDuration(spec);
    var p := WristPath(spec);
    forall n: nat ensures Abs(p.Delta(n)) <= spec.amplitude {
      FourLegs(p, spec.amplitude, n % 4);
    }
    StepsBoundJerk(p, spec.amplitude);
  }
}
