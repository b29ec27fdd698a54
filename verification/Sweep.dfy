/** One motor's share of a diagnostic trajectory: a closed list of offsets visited in
    order, each leg a quintic transition followed by a hold, repeated for some cycles. */
module Sweep {
  import opened Common
  import opened Quintic
  import opened Gluing
  import opened Segment

  /** Offsets in degrees, times in seconds. */
  datatype Path = Path(points: seq<real>, transition: real, hold: real, cycles: nat) {

    predicate Valid() {
      && |points| >= 2 && points[0] == 0.0 && points[|points| - 1] == 0.0
      && transition > 0.0 && hold > 0.0 && cycles > 0
    }

    function Legs(): (n: nat)
      requires Valid()
      ensures n >= 1
    {
      |points| - 1
    }

    function Period(): (p: real)
      requires Valid()
      ensures p > transition
    {
      transition + hold
    }

    /** The initial hold, then every leg of every cycle. */
    function Duration(): real
      requires Valid()
    {
      hold + Start(cycles * Legs(), Period())
    }

    function Delta(n: nat): real
      requires Valid()
    {
      var leg := n % Legs();
      points[leg + 1] - points[leg]
    }

    /** Is the trajectory between its initial hold and its end? */
    predicate Moving(t: real)
      requires Valid()
    {
      hold < t < Duration()
    }

    // The trajectory and its two derivatives, one piece per leg.

    function OffsetPiece(n: nat, x: real): real
      requires Valid()
    {
      points[n % Legs()] + Scaled(Blend, Delta(n), transition, x)
    }

    function VelocityPiece(n: nat, x: real): real
      requires Valid()
    {
      Scaled(BlendRate, Delta(n) / transition, transition, x)
    }

    function AccelerationPiece(n: nat, x: real): real
      requires Valid()
    {
      Scaled(BlendBend, Delta(n) / transition / transition, transition, x)
    }

    /** The value at time t of whatever `piece` describes: zero unless moving. */
    function At(piece: (nat, real) -> real, t: real): real
      requires Valid()
    {
      if Moving(t) then Piecewise(piece, Period(), t - hold) else 0.0
    }

    function Offsets(): (nat, real) -> real
      requires Valid()
    {
      (n: nat, x: real) => OffsetPiece(n, x)
    }

    function Velocities(): (nat, real) -> real
      requires Valid()
    {
      (n: nat, x: real) => VelocityPiece(n, x)
    }

    function Accelerations(): (nat, real) -> real
      requires Valid()
    {
      (n: nat, x: real) => AccelerationPiece(n, x)
    }

    function Offset(t: real): real
      requires Valid()
    {
      At(Offsets(), t)
    }

    function Velocity(t: real): real
      requires Valid()
    {
      At(Velocities(), t)
    }

    function Acceleration(t: real): real
      requires Valid()
    {
      At(Accelerations(), t)
    }
  }

  /** Zero at both ends of the moving part. */
  ghost predicate Anchored(p: Path, piece: (nat, real) -> real)
    requires p.Valid()
  {
    piece(0, 0.0) == 0.0 && piece(p.cycles * p.Legs(), 0.0) == 0.0
  }

  /** While moving, and at both ends, the trajectory is the piecewise function. */
  lemma AtInside(p: Path, piece: (nat, real) -> real, t: real)
    requires p.Valid() && Anchored(p, piece) && p.hold <= t <= p.Duration()
    ensures p.At(piece, t) == Piecewise(piece, p.Period(), t - p.hold)
  {
    hide Start;
    AtBoundary(piece, p.Period(), 0);
    AtBoundary(piece, p.Period(), p.cycles * p.Legs());
    NextStart(0, p.Period());
  }

  lemma DurationExceedsHold(p: Path)
    requires p.Valid()
    ensures p.hold < p.Duration()
  {
    hide Start;
    assert p.cycles * p.Legs() >= 1;
    NextStart(0, p.Period());
    StartOrder(0, p.cycles * p.Legs(), p.Period());
  }

  /** The speed bound of the pieces is a speed bound between any two times. */
  lemma LipschitzEverywhere(p: Path, piece: (nat, real) -> real, bound: real, a: real, b: real)
    requires p.Valid() && Anchored(p, piece) && bound >= 0.0 && a <= b
    requires Joined(piece, p.Period()) && PieceLipschitz(piece, p.Period(), bound)
    ensures Within(p.At(piece, b) - p.At(piece, a), bound, b - a)
  {
    hide Start, Within;
    DurationExceedsHold(p);
    var from, to := Clamp(p, a), Clamp(p, b);
    AtInside(p, piece, from);
    AtInside(p, piece, to);
    GlueLipschitz(piece, p.Period(), bound, from - p.hold, to - p.hold);
    assert (to - p.hold) - (from - p.hold) == to - from;
    AtInside(p, piece, p.hold);
    AtInside(p, piece, p.Duration());
    WithinLonger(p.At(piece, b) - p.At(piece, a), bound, to - from, b - a);
  }

  function Clamp(p: Path, t: real): real
    requires p.Valid()
  {
    if t <= p.hold then p.hold else if t >= p.Duration() then p.Duration() else t
  }

  lemma WithinLonger(v: real, bound: real, h: real, g: real)
    requires Within(v, bound, h) && h <= g && bound >= 0.0
    ensures Within(v, bound, g)
  {
    Product(bound, g - h);
    assert bound * (g - h) == bound * g - bound * h;
  }

  /** The derivative of the pieces is the derivative at every time, ends included. */
  lemma TangentEverywhere(p: Path, piece: (nat, real) -> real, rate: (nat, real) -> real, bend: real, bound: real, a: real, b: real)
    requires p.Valid() && Anchored(p, piece) && Anchored(p, rate) && 0.0 <= bend <= 2.0 * bound && a <= b
    requires Joined(piece, p.Period()) && Joined(rate, p.Period())
    requires PieceLipschitz(rate, p.Period(), bend) && PieceTangent(piece, rate, p.Period(), bound)
    ensures TangentWithin(p.At(piece, a), p.At(piece, b), p.At(rate, a), b - a, bound)
  {
    hide Start, Within, TangentWithin;
    DurationExceedsHold(p);
    if b <= p.hold || a >= p.Duration() {
      FlatTangent(0.0, b - a, bound);
    } else if a <= p.hold {
      TangentFromMoving(p, piece, rate, bend, bound, p.hold, b);
      FlatTangent(0.0, p.hold - a, bound);
      LipschitzEverywhere(p, rate, bend, a, p.hold);
      TwoTangents(0.0, 0.0, p.At(piece, b), 0.0, 0.0, p.hold - a, b - p.hold, bend, bound);
      assert (p.hold - a) + (b - p.hold) == b - a;
    } else {
      TangentFromMoving(p, piece, rate, bend, bound, a, b);
    }
  }

  lemma TangentFromMoving(p: Path, piece: (nat, real) -> real, rate: (nat, real) -> real, bend: real, bound: real, a: real, b: real)
    requires p.Valid() && Anchored(p, piece) && Anchored(p, rate) && 0.0 <= bend <= 2.0 * bound
    requires p.hold <= a <= b && a <= p.Duration()
    requires Joined(piece, p.Period()) && Joined(rate, p.Period())
    requires PieceLipschitz(rate, p.Period(), bend) && PieceTangent(piece, rate, p.Period(), bound)
    ensures TangentWithin(p.At(piece, a), p.At(piece, b), p.At(rate, a), b - a, bound)
  {
    hide Start, Within, TangentWithin;
    var end := p.Duration();
    var to := if b <= end then b else end;
    AtInside(p, piece, a);
    AtInside(p, rate, a);
    AtInside(p, piece, to);
    GlueTangent(piece, rate, p.Period(), bend, bound, a - p.hold, to - p.hold);
    assert (to - p.hold) - (a - p.hold) == to - a;
    if b > end {
      FlatTangent(0.0, b - end, bound);
      LipschitzEverywhere(p, rate, bend, a, end);
      assert p.At(rate, end) == 0.0 && p.At(piece, end) == 0.0 && p.At(piece, b) == 0.0;
      TwoTangents(p.At(piece, a), 0.0, 0.0, p.At(rate, a), 0.0, end - a, b - end, bend, bound);
      assert (end - a) + (b - end) == b - a;
    }
  }

  // ----- budgets

  /** No leg asks for more than `speed` at its fastest instant. */
  ghost predicate SpeedBudget(p: Path, speed: real)
    requires p.Valid()
  {
    speed >= 0.0 && forall n: nat :: 1.875 * Abs(p.Delta(n)) <= speed * p.transition
  }

  /** No leg asks for more than `acceleration`; squared, because the constant
      10 sqrt(3) / 3 is irrational. */
  ghost predicate AccelerationBudget(p: Path, acceleration: real)
    requires p.Valid()
  {
    acceleration > 0.0 && forall n: nat :: AccelerationFits(p.Delta(n), p.transition, acceleration)
  }

  predicate AccelerationFits(delta: real, transition: real, acceleration: real) {
    var reach := acceleration * (transition * transition);
    100.0 * (delta * delta) <= 3.0 * (reach * reach)
  }

  /** The squared test is the test with the root: k * |delta| / transition^2 <= acceleration. */
  lemma AccelerationFitsMeans(delta: real, transition: real, acceleration: real, k: real)
    requires transition > 0.0 && acceleration > 0.0 && IsAccelerationConstant(k)
    ensures AccelerationFits(delta, transition, acceleration)
       <==> k * Abs(delta) / (transition * transition) <= acceleration
  {
    hide AccelerationFits, IsAccelerationConstant;
    var square := transition * transition;
    SquarePositive(transition, square);
    SquareTest(delta, transition, square, acceleration, k);
    DivisionOrder(k * Abs(delta), square, acceleration);
  }

  lemma SquareTest(delta: real, transition: real, square: real, acceleration: real, k: real)
    requires square == transition * transition && square > 0.0 && acceleration > 0.0 && IsAccelerationConstant(k)
    ensures AccelerationFits(delta, transition, acceleration) <==> k * Abs(delta) <= acceleration * square
  {
    hide IsAccelerationConstant;
    var reach, load := acceleration * square, k * Abs(delta);
    StrictProduct(acceleration, square);
    LoadSquared(k, Abs(delta));
    Product(k, Abs(delta));
    SquareOrder(load, reach);
    assert Abs(delta) * Abs(delta) == delta * delta;
  }

  lemma SquarePositive(x: real, square: real)
    requires x > 0.0 && square == x * x
    ensures square > 0.0
  {
    ProductPositive(x, x, square);
  }

  lemma ProductPositive(a: real, b: real, product: real)
    requires a > 0.0 && b > 0.0 && product == a * b
    ensures product > 0.0
  {}

  lemma LoadSquared(k: real, d: real)
    requires IsAccelerationConstant(k)
    ensures k > 0.0 && 3.0 * ((k * d) * (k * d)) == 100.0 * (d * d)
  {
    assert (k * d) * (k * d) == (k * k) * (d * d);
  }

  lemma DivisionOrder(x: real, y: real, bound: real)
    requires y > 0.0
    ensures x / y <= bound <==> x <= bound * y
  {
    var q := x / y;
    Quotient(x, y);
    QuotientOrder(q, bound, y);
  }

  lemma QuotientOrder(q: real, bound: real, y: real)
    requires y > 0.0
    ensures q <= bound <==> q * y <= bound * y
  {
    DifferenceScaled(bound, q, y);
    if q <= bound { Product(bound - q, y); } else { StrictProduct(q - bound, y); }
  }

  lemma DifferenceScaled(a: real, b: real, y: real)
    ensures (a - b) * y == a * y - b * y && (b - a) * y == b * y - a * y
  {}

  lemma SquareOrder(a: real, b: real)
    requires a >= 0.0 && b > 0.0
    ensures a * a <= b * b <==> a <= b
  {
    assert b * b - a * a == (b - a) * (b + a);
    if a <= b { Product(b - a, b + a); } else { StrictProduct(a - b, b + a); assert (a - b) * (b + a) == a * a - b * b; }
  }

  lemma Boundaries(p: Path, n: nat)
    requires p.Valid()
    ensures p.OffsetPiece(n, p.Period()) == p.OffsetPiece(n + 1, 0.0) == p.points[n % p.Legs() + 1]
    ensures p.VelocityPiece(n, p.Period()) == 0.0 == p.VelocityPiece(n + 1, 0.0)
    ensures p.AccelerationPiece(n, p.Period()) == 0.0 == p.AccelerationPiece(n + 1, 0.0)
    ensures p.OffsetPiece(0, 0.0) == p.VelocityPiece(0, 0.0) == p.AccelerationPiece(0, 0.0) == 0.0
  {
    hide Blend, BlendRate, BlendBend;
    var legs := p.Legs();
    assert (n + 1) % legs == if n % legs + 1 == legs then 0 else n % legs + 1 by { NextModulo(n, legs); }
    BlendStarts(); BlendFinishes(); RateStarts(); RateFinishes(); BendStarts(); BendFinishes();
    assert Progress(p.transition, p.Period()) == 1.0;
    assert Progress(p.transition, 0.0) == 0.0;
  }

  lemma NextModulo(n: nat, m: nat)
    requires m >= 1
    ensures (n + 1) % m == if n % m + 1 == m then 0 else n % m + 1
  {
    var q, r := n / m, n % m;
    assert n == q * m + r;
    if r + 1 == m {
      assert (q + 1) * m == q * m + m;
      Remainder(n + 1, q + 1, m, 0);
    } else {
      Remainder(n + 1, q, m, r + 1);
    }
  }

  /** Quotient and remainder are unique. */
  lemma Remainder(a: nat, q: nat, m: nat, r: nat)
    requires r < m && a == q * m + r
    ensures a % m == r && a / m == q
  {
    var p, s := a / m, a % m;
    assert a == p * m + s;
    assert (q - p) * m == q * m - p * m && (p - q) * m == p * m - q * m;
    if p < q { AtLeastOnce(q - p, m); } else if q < p { AtLeastOnce(p - q, m); }
  }

  lemma AtLeastOnce(k: nat, m: nat)
    requires k >= 1
    ensures k * m >= m
  {}

  // ----- every leg of an accepted path keeps its budgets

  lemma RateScaledLipschitz(scale: real, transition: real, acceleration: real, x: real, y: real)
    requires transition > 0.0 && acceleration > 0.0 && 0.0 <= x <= y
    requires RateFits(scale, transition, acceleration)
    ensures Within(Scaled(BlendRate, scale, transition, y) - Scaled(BlendRate, scale, transition, x), acceleration, y - x)
  {
    hide Progress, BlendRate, Within, RateFits;
    var u, w := Progress(transition, x), Progress(transition, y);
    ProgressBounds(transition, x, y);
    var slope := RateSlope(u, w);
    SlopeWithin(scale, slope, transition, acceleration);
    var change := Scaled(BlendRate, scale, transition, y) - Scaled(BlendRate, scale, transition, x);
    ChangeOfScaled(scale, slope, BlendRate(u), BlendRate(w), w - u);
    ChangeWithin(change, scale * slope, w - u, transition, acceleration, y - x);
  }

  lemma ChangeOfScaled(scale: real, slope: real, r: real, q: real, d: real)
    requires q - r == slope * d
    ensures scale * q - scale * r == scale * slope * d
  {
    assert scale * q - scale * r == scale * (q - r);
  }

  predicate RateFits(scale: real, transition: real, acceleration: real) {
    var reach := acceleration * transition;
    100.0 * (scale * scale) <= 3.0 * (reach * reach)
  }

  lemma SlopeWithin(scale: real, slope: real, transition: real, acceleration: real)
    requires transition > 0.0 && acceleration > 0.0 && RateFits(scale, transition, acceleration)
    requires 3.0 * (slope * slope) <= 100.0
    ensures Abs(scale * slope) <= acceleration * transition
  {
    var reach, s2, p2 := acceleration * transition, scale * scale, slope * slope;
    StrictProduct(acceleration, transition);
    Square(scale);
    Product(s2, 100.0 - 3.0 * p2);
    assert s2 * (100.0 - 3.0 * p2) == 100.0 * s2 - 3.0 * (s2 * p2);
    assert (scale * slope) * (scale * slope) == s2 * p2;
    AbsBySquare(scale * slope, reach);
  }

  lemma ChangeWithin(change: real, steep: real, d: real, transition: real, acceleration: real, h: real)
    requires transition > 0.0 && acceleration > 0.0 && d >= 0.0 && d * transition <= h
    requires Abs(steep) <= acceleration * transition && change == steep * d
    ensures Within(change, acceleration, h)
  {
    ScaleBound(d, steep, acceleration * transition);
    Product(acceleration, h - d * transition);
    assert acceleration * (h - d * transition) == acceleration * h - acceleration * transition * d;
    assert steep * d == d * steep;
  }

  lemma ScaledBudget(delta: real, transition: real, acceleration: real)
    requires transition > 0.0 && acceleration > 0.0 && AccelerationFits(delta, transition, acceleration)
    ensures RateFits(delta / transition, transition, acceleration)
    ensures Abs(delta) * 15.0 <= 3.0 * acceleration * (transition * transition)
  {
    var square := transition * transition;
    SquarePositive(transition, square);
    var scale, reach := delta / transition, acceleration * transition;
    Quotient(delta, transition);
    UnscaledSquares(scale, delta, reach, acceleration * square, transition);
    StrictProduct(acceleration, square);
    AbsBySquare(5.0 * delta, acceleration * square);
    assert 5.0 * Abs(delta) == Abs(5.0 * delta);
  }

  lemma UnscaledSquares(scale: real, delta: real, reach: real, far: real, transition: real)
    requires transition > 0.0 && scale * transition == delta && reach * transition == far
    requires 100.0 * (delta * delta) <= 3.0 * (far * far)
    ensures 100.0 * (scale * scale) <= 3.0 * (reach * reach)
  {
    var square, gap := transition * transition, 3.0 * (reach * reach) - 100.0 * (scale * scale);
    SquarePositive(transition, square);
    assert delta * delta == (scale * scale) * square && far * far == (reach * reach) * square;
    assert gap * square == 3.0 * (far * far) - 100.0 * (delta * delta);
    if gap < 0.0 { StrictProduct(-gap, square); }
  }

  /** Every leg starts and ends at rest where its neighbours do. */
  lemma PiecesJoin(p: Path)
    requires p.Valid()
    ensures Joined(p.Offsets(), p.Period()) && Joined(p.Velocities(), p.Period()) && Joined(p.Accelerations(), p.Period())
    ensures Anchored(p, p.Offsets()) && Anchored(p, p.Velocities()) && Anchored(p, p.Accelerations())
  {
    forall n: nat
      ensures p.Offsets()(n, p.Period()) == p.Offsets()(n + 1, 0.0)
      ensures p.Velocities()(n, p.Period()) == p.Velocities()(n + 1, 0.0)
      ensures p.Accelerations()(n, p.Period()) == p.Accelerations()(n + 1, 0.0)
    {
      Boundaries(p, n);
    }
    Boundaries(p, 0);
    var last := p.cycles * p.Legs() - 1;
    AtLeastOnce(p.cycles, p.Legs());
    Remainder(last + 1, p.cycles, p.Legs(), 0);
    NextModulo(last, p.Legs());
    Boundaries(p, last);
  }

  /** The moving offset is never faster than the speed budget: between any two times,
      across legs, holds and cycles, the offset changes by at most speed * elapsed. */
  lemma SpeedLimit(p: Path, speed: real, a: real, b: real)
    requires p.Valid() && SpeedBudget(p, speed) && a <= b
    ensures Within(p.Offset(b) - p.Offset(a), speed, b - a)
  {
    PiecesJoin(p);
    OffsetPieces(p, speed);
    hide SpeedBudget, Within, PieceLipschitz;
    LipschitzEverywhere(p, p.Offsets(), speed, a, b);
  }

  lemma OffsetPieces(p: Path, speed: real)
    requires p.Valid() && SpeedBudget(p, speed)
    ensures PieceLipschitz(p.Offsets(), p.Period(), speed)
  {
    hide Blend, Scaled, Within;
    forall n: nat, x: real, y: real | 0.0 <= x <= y <= p.Period()
      ensures Within(p.Offsets()(n, y) - p.Offsets()(n, x), speed, y - x)
    {
      BlendIsRegular();
      ScaledLipschitz(Blend, 1.875, p.Delta(n), p.transition, speed, x, y);
      OffsetDifference(p, n, x, y);
    }
  }

  lemma OffsetDifference(p: Path, n: nat, x: real, y: real)
    requires p.Valid()
    ensures p.Offsets()(n, y) - p.Offsets()(n, x)
         == Scaled(Blend, p.Delta(n), p.transition, y) - Scaled(Blend, p.Delta(n), p.transition, x)
  {}

  lemma VelocityPieces(p: Path, acceleration: real)
    requires p.Valid() && AccelerationBudget(p, acceleration)
    ensures PieceLipschitz(p.Velocities(), p.Period(), acceleration)
  {
    hide BlendRate, Scaled, AccelerationFits, RateFits;
    forall n: nat, x: real, y: real | 0.0 <= x <= y <= p.Period()
      ensures Within(p.Velocities()(n, y) - p.Velocities()(n, x), acceleration, y - x)
    {
      ScaledBudget(p.Delta(n), p.transition, acceleration);
      RateScaledLipschitz(p.Delta(n) / p.transition, p.transition, acceleration, x, y);
    }
  }

  /** The analytic velocity changes by at most acceleration * elapsed between any times. */
  lemma AccelerationLimit(p: Path, acceleration: real, a: real, b: real)
    requires p.Valid() && AccelerationBudget(p, acceleration) && a <= b
    ensures Within(p.Velocity(b) - p.Velocity(a), acceleration, b - a)
  {
    PiecesJoin(p);
    VelocityPieces(p, acceleration);
    LipschitzEverywhere(p, p.Velocities(), acceleration, a, b);
  }

  /** The analytic velocity is the derivative of the offset, at every time. */
  lemma VelocityIsDerivative(p: Path, acceleration: real, a: real, b: real)
    requires p.Valid() && AccelerationBudget(p, acceleration) && a <= b
    ensures TangentWithin(p.Offset(a), p.Offset(b), p.Velocity(a), b - a, 3.0 * acceleration)
  {
    hide Blend, BlendRate, Scaled, TangentWithin, AccelerationFits, RateFits;
    PiecesJoin(p);
    VelocityPieces(p, acceleration);
    BlendIsRegular();
    RateFinishes();
    forall n: nat, x: real, y: real | 0.0 <= x <= y <= p.Period()
      ensures TangentWithin(p.Offsets()(n, x), p.Offsets()(n, y), p.Velocities()(n, x), y - x, 3.0 * acceleration)
    {
      OffsetTangent(p, acceleration, n, x, y);
    }
    TangentEverywhere(p, p.Offsets(), p.Velocities(), acceleration, 3.0 * acceleration, a, b);
  }

  lemma OffsetTangent(p: Path, acceleration: real, n: nat, x: real, y: real)
    requires p.Valid() && AccelerationBudget(p, acceleration) && 0.0 <= x <= y <= p.Period()
    ensures TangentWithin(p.Offsets()(n, x), p.Offsets()(n, y), p.Velocities()(n, x), y - x, 3.0 * acceleration)
  {
    hide Blend, BlendRate, Scaled, AccelerationFits, RateFits, Within, TangentWithin;
    var delta, t := p.Delta(n), p.transition;
    BlendIsRegular();
    RateFinishes();
    ScaledBudget(delta, t, acceleration);
    Quotient(delta, t);
    if x < t { RateScaledLipschitz(delta / t, t, acceleration, x, t); }
    ScaledTangent(Blend, BlendRate, 15.0, delta, delta / t, t, acceleration, 3.0 * acceleration, x, y);
    TangentShifts(p.points[n % p.Legs()], Scaled(Blend, delta, t, x), Scaled(Blend, delta, t, y),
                  Scaled(BlendRate, delta / t, t, x), y - x, 3.0 * acceleration);
  }

  lemma TangentShifts(c: real, x: real, y: real, rate: real, elapsed: real, bound: real)
    requires TangentWithin(x, y, rate, elapsed, bound)
    ensures TangentWithin(c + x, c + y, rate, elapsed, bound)
  {
    assert (c + y) - (c + x) == y - x;
  }

  /** The jerk every leg stays within. */
  ghost predicate JerkBudget(p: Path, jerk: real)
    requires p.Valid()
  {
    jerk >= 0.0 && forall n: nat :: 60.0 * Abs(p.Delta(n) / p.transition / p.transition) <= jerk * p.transition
  }

  /** The largest of the first k steps between points. */
  function LargestStep(points: seq<real>, k: nat): (s: real)
    requires k < |points|
    ensures s >= 0.0 && forall j :: 0 <= j < k ==> Abs(points[j + 1] - points[j]) <= s
  {
    if k == 0 then 0.0
    else
      var s := LargestStep(points, k - 1);
      if Abs(points[k] - points[k - 1]) > s then Abs(points[k] - points[k - 1]) else s
  }

  /** The jerk of a leg of the given step: 60 step / transition^3. */
  function JerkOf(step: real, transition: real): real
    requires transition > 0.0
  {
    60.0 * (step / transition / transition) / transition
  }

  /** No leg steeper than the largest step exceeds its jerk. */
  lemma StepsBoundJerk(p: Path, step: real)
    requires p.Valid() && step >= 0.0 && forall n: nat :: Abs(p.Delta(n)) <= step
    ensures JerkBudget(p, JerkOf(step, p.transition))
  {
    hide JerkOf, Abs;
    forall n: nat ensures 60.0 * Abs(p.Delta(n) / p.transition / p.transition) <= JerkOf(step, p.transition) * p.transition {
      LegJerk(p.Delta(n), step, p.transition);
    }
    JerkNonnegative(step, p.transition);
  }

  lemma LegJerk(delta: real, step: real, t: real)
    requires t > 0.0 && Abs(delta) <= step
    ensures 60.0 * Abs(delta / t / t) <= JerkOf(step, t) * t
  {
    QuotientWithin(delta, step, t);
    QuotientWithin(delta / t, step / t, t);
    Quotient(60.0 * (step / t / t), t);
  }

  lemma JerkNonnegative(step: real, t: real)
    requires t > 0.0 && step >= 0.0
    ensures JerkOf(step, t) >= 0.0
  {
    QuotientNonnegative(step, t);
    QuotientNonnegative(step / t, t);
    QuotientNonnegative(60.0 * (step / t / t), t);
  }

  lemma QuotientNonnegative(x: real, t: real)
    requires t > 0.0 && x >= 0.0
    ensures x / t >= 0.0
  {}

  lemma QuotientWithin(x: real, bound: real, t: real)
    requires t > 0.0 && Abs(x) <= bound
    ensures Abs(x / t) <= bound / t
  {
    Unscale(x, bound, t);
    Unscale(-bound, x, t);
    QuotientNegates(bound, t);
  }

  lemma QuotientNegates(x: real, t: real)
    requires t > 0.0
    ensures -x / t == -(x / t)
  {}

  /** Every path has a jerk budget, so no specification needs to state one. */
  lemma EveryPathHasJerk(p: Path)
    requires p.Valid()
    ensures JerkBudget(p, JerkOf(LargestStep(p.points, p.Legs()), p.transition))
  {
    forall n: nat ensures Abs(p.Delta(n)) <= LargestStep(p.points, p.Legs()) {}
    StepsBoundJerk(p, LargestStep(p.points, p.Legs()));
  }

  /** The analytic acceleration is the derivative of the velocity, at every time. */
  lemma AccelerationIsDerivative(p: Path, a: real, b: real)
    requires p.Valid() && a <= b
    ensures var jerk := JerkOf(LargestStep(p.points, p.Legs()), p.transition);
      && TangentWithin(p.Velocity(a), p.Velocity(b), p.Acceleration(a), b - a, jerk)
      && Within(p.Acceleration(b) - p.Acceleration(a), jerk, b - a)
  {
    hide TangentWithin, Within, JerkBudget, JerkOf;
    EveryPathHasJerk(p);
    AccelerationWithinJerk(p, JerkOf(LargestStep(p.points, p.Legs()), p.transition), a, b);
  }

  /** ... within any jerk budget. */
  lemma AccelerationWithinJerk(p: Path, jerk: real, a: real, b: real)
    requires p.Valid() && JerkBudget(p, jerk) && a <= b
    ensures TangentWithin(p.Velocity(a), p.Velocity(b), p.Acceleration(a), b - a, jerk)
    ensures Within(p.Acceleration(b) - p.Acceleration(a), jerk, b - a)
  {
    hide Scaled, TangentWithin;
    PiecesJoin(p);
    forall n: nat, x: real, y: real | 0.0 <= x <= y <= p.Period()
      ensures Within(p.Accelerations()(n, y) - p.Accelerations()(n, x), jerk, y - x)
      ensures TangentWithin(p.Velocities()(n, x), p.Velocities()(n, y), p.Accelerations()(n, x), y - x, jerk)
    {
      VelocityTangent(p, jerk, n, x, y);
    }
    LipschitzEverywhere(p, p.Accelerations(), jerk, a, b);
    TangentEverywhere(p, p.Velocities(), p.Accelerations(), jerk, jerk, a, b);
  }

  lemma VelocityTangent(p: Path, jerk: real, n: nat, x: real, y: real)
    requires p.Valid() && JerkBudget(p, jerk) && 0.0 <= x <= y <= p.Period()
    ensures Within(p.Accelerations()(n, y) - p.Accelerations()(n, x), jerk, y - x)
    ensures TangentWithin(p.Velocities()(n, x), p.Velocities()(n, y), p.Accelerations()(n, x), y - x, jerk)
  {
    hide BlendRate, BlendBend, Scaled, Within, TangentWithin;
    var t := p.transition;
    var scale := p.Delta(n) / t;
    var slope := scale / t;
    RateIsRegular();
    BendFinishes();
    Quotient(scale, t);
    ScaledLipschitz(BlendBend, 60.0, slope, t, jerk, x, y);
    if x < t { ScaledLipschitz(BlendBend, 60.0, slope, t, jerk, x, t); }
    JerkFits(scale, slope, t, jerk);
    ScaledTangent(BlendRate, BlendBend, 60.0, scale, slope, t, jerk, jerk, x, y);
  }

  lemma JerkFits(scale: real, slope: real, t: real, jerk: real)
    requires t > 0.0 && slope * t == scale && 60.0 * Abs(slope) <= jerk * t
    ensures Abs(scale) * 60.0 <= jerk * (t * t)
  {
    Product(jerk * t - 60.0 * Abs(slope), t);
    assert (jerk * t - 60.0 * Abs(slope)) * t == jerk * (t * t) - 60.0 * (Abs(slope) * t);
    assert Abs(slope) * t == Abs(scale) by { ScaleSign(slope, t); }
  }

  lemma ScaleSign(s: real, t: real)
    requires t > 0.0
    ensures Abs(s * t) == Abs(s) * t
  {
    Product(Abs(s), t);
  }

  // ----- envelope

  lemma Between(p: real, q: real, blend: real, lo: real, hi: real)
    requires 0.0 <= blend <= 1.0 && lo <= p <= hi && lo <= q <= hi
    ensures lo <= p + (q - p) * blend <= hi
  {
    Product(blend, q - lo);
    Product(blend, hi - q);
    Product(1.0 - blend, p - lo);
    Product(1.0 - blend, hi - p);
    assert p + (q - p) * blend - lo == blend * (q - lo) + (1.0 - blend) * (p - lo);
    assert hi - (p + (q - p) * blend) == blend * (hi - q) + (1.0 - blend) * (hi - p);
  }

  /** Bounds on the listed points are bounds on the whole motion. */
  lemma EnvelopeOfPoints(p: Path, lo: real, hi: real, t: real)
    requires p.Valid() && forall i :: 0 <= i < |p.points| ==> lo <= p.points[i] <= hi
    ensures lo <= p.Offset(t) <= hi
  {
    hide Blend, Start;
    assert lo <= p.points[0] <= hi;
    if p.Moving(t) {
      var n := Index(p.Period(), t - p.hold);
      var leg, x := n % p.Legs(), t - p.hold - Start(n, p.Period());
      ProgressBounds(p.transition, x, x);
      BlendRange(Progress(p.transition, x));
      Between(p.points[leg], p.points[leg + 1], Blend(Progress(p.transition, x)), lo, hi);
    }
  }
}
