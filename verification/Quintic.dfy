/** The quintic blend u^3 (10 - 15 u + 6 u^2) that every diagnostic trajectory segment
    follows, its exact speed and acceleration constants, and the gluing argument that
    carries bounds across segment boundaries. */
module Quintic {

  import opened Common

  function Blend(u: real): real { u * u * u * (10.0 - 15.0 * u + 6.0 * u * u) }

  /** The derivative of Blend. */
  function BlendRate(u: real): real { 30.0 * u * u * (1.0 - u) * (1.0 - u) }

  /** The derivative of BlendRate. */
  function BlendBend(u: real): real { 60.0 * u * (1.0 - u) * (1.0 - 2.0 * u) }

  /** `k` stands for 10 sqrt(3) / 3, the largest |second derivative| of the blend. */
  ghost predicate IsAccelerationConstant(k: real) { k > 0.0 && 3.0 * k * k == 100.0 }

  // ----- symmetric coordinates x = u - 1/2

  function Cube(x: real): real { x * x * x }
  function Fifth(x: real): real { x * x * x * x * x }

  lemma CenteredBlend(x: real)
    ensures Blend(x + 0.5) == 0.5 + 1.875 * x - 5.0 * Cube(x) + 6.0 * Fifth(x)
  {}

  lemma CenteredRate(x: real)
    ensures BlendRate(x + 0.5) == 30.0 * (0.25 - x * x) * (0.25 - x * x)
  {
    var w := 0.25 - x * x;
    assert (x + 0.5) * (1.0 - (x + 0.5)) == w;
    RateAsSquare(x + 0.5);
  }

  lemma RateAsSquare(u: real)
    ensures BlendRate(u) == 30.0 * (u * (1.0 - u)) * (u * (1.0 - u))
  {}

  /** The mean slope of the blend between x and y, in symmetric coordinates. */
  function Slope(p: real, r: real): real {
    1.875 - 5.0 * (p + r) + 6.0 * p * (p + r) - 6.0 * r * r
  }

  lemma DifferenceQuotient(x: real, y: real)
    ensures Blend(y + 0.5) - Blend(x + 0.5) == (y - x) * Slope(x * x + y * y, x * y)
  {
    hide Blend;
    CenteredBlend(x);
    CenteredBlend(y);
    CubeDifference(x, y);
    FifthDifference(x, y);
    var p, r := x * x + y * y, x * y;
    Distribute(y - x, p + r, p * (p + r) - r * r);
    assert Slope(p, r) == 1.875 - 5.0 * (p + r) + 6.0 * (p * (p + r) - r * r);
  }

  lemma Distribute(h: real, s: real, t: real)
    ensures h * (1.875 - 5.0 * s + 6.0 * t) == 1.875 * h - 5.0 * (h * s) + 6.0 * (h * t)
  {}

  lemma CubeDifference(x: real, y: real)
    ensures Cube(y) - Cube(x) == (y - x) * (x * x + y * y + x * y)
  {}

  lemma FifthDifference(x: real, y: real)
    ensures var p, r := x * x + y * y, x * y;
            Fifth(y) - Fifth(x) == (y - x) * (p * (p + r) - r * r)
  {}

  /** With |x|, |y| <= 1/2 the mean slope lies between 0 and 15/8. */
  lemma SlopeBounds(x: real, y: real)
    requires -0.5 <= x <= 0.5 && -0.5 <= y <= 0.5
    ensures 0.0 <= Slope(x * x + y * y, x * y) <= 1.875
  {
    var p, r := x * x + y * y, x * y;
    SquareAtMost(x);
    SquareAtMost(y);
    assert p - 2.0 * r == (x - y) * (x - y) && p + 2.0 * r == (x + y) * (x + y);
    Square(x - y);
    Square(x + y);
    SlopeUpper(p, r);
    SlopeLower(p, r);
  }

  lemma Square(x: real) ensures x * x >= 0.0 {}

  lemma SquareAtMost(x: real)
    requires -0.5 <= x <= 0.5
    ensures 0.0 <= x * x <= 0.25
  {
    Square(x);
    Product(0.5 - x, 0.5 + x);
  }

  lemma Product(a: real, b: real)
    requires a >= 0.0 && b >= 0.0
    ensures a * b >= 0.0
  {}

  lemma SlopeUpper(p: real, r: real)
    requires 0.0 <= p <= 0.5 && p - 2.0 * r >= 0.0 && p + 2.0 * r >= 0.0
    ensures Slope(p, r) <= 1.875
  {
    Product(0.5 - p, p + r);
    Square(r);
    assert 6.0 * p * (p + r) == 3.0 * (p + r) - 6.0 * ((0.5 - p) * (p + r));
    assert 6.0 * r * r == 6.0 * (r * r);
  }

  lemma SlopeLower(p: real, r: real)
    requires 0.0 <= p <= 0.5 && p - 2.0 * r >= 0.0 && p + 2.0 * r >= 0.0
    ensures Slope(p, r) >= 0.0
  {
    Square(p - 0.5);
    Product(0.5 * p - r, 5.0 - 3.0 * p + 6.0 * r);
    assert Slope(p, r) == 7.5 * ((p - 0.5) * (p - 0.5)) + (0.5 * p - r) * (5.0 - 3.0 * p + 6.0 * r);
  }

  // ----- the three facts about one segment

  /** The blend never runs backwards and never faster than 15/8 per unit of u. */
  lemma BlendSpeed(a: real, b: real)
    requires 0.0 <= a <= b <= 1.0
    ensures 0.0 <= Blend(b) - Blend(a) <= 1.875 * (b - a)
  {
    hide Blend, Slope;
    BlendSpeedCentered(a, b, b - a, a - 0.5, b - 0.5);
  }

  lemma BlendSpeedCentered(a: real, b: real, d: real, x: real, y: real)
    requires -0.5 <= x <= y <= 0.5 && a == x + 0.5 && b == y + 0.5 && d == y - x
    ensures 0.0 <= Blend(b) - Blend(a) <= 1.875 * d
  {
    hide Blend, Slope;
    DifferenceQuotient(x, y);
    SlopeBounds(x, y);
    RiseBounds(Blend(y + 0.5) - Blend(x + 0.5), y - x, Slope(x * x + y * y, x * y), 1.875);
  }

  lemma RiseBounds(rise: real, d: real, m: real, k: real)
    requires d >= 0.0 && 0.0 <= m <= k && rise == d * m
    ensures 0.0 <= rise <= k * d
  {
    ProductBounds(d, m, k);
  }

  lemma ProductBounds(d: real, m: real, k: real)
    requires d >= 0.0 && 0.0 <= m <= k
    ensures 0.0 <= d * m <= k * d
  {
    Product(d, m);
    Product(d, k - m);
  }

  lemma BlendStarts() ensures Blend(0.0) == 0.0 {}
  lemma BlendFinishes() ensures Blend(1.0) == 1.0 {}
  lemma RateStarts() ensures BlendRate(0.0) == 0.0 {}
  lemma RateFinishes() ensures BlendRate(1.0) == 0.0 {}
  lemma BendStarts() ensures BlendBend(0.0) == 0.0 {}
  lemma BendFinishes() ensures BlendBend(1.0) == 0.0 {}

  lemma BlendRange(u: real)
    requires 0.0 <= u <= 1.0
    ensures 0.0 <= Blend(u) <= 1.0
  {
    hide Blend;
    BlendStarts();
    BlendFinishes();
    BlendSpeed(0.0, u);
    BlendSpeed(u, 1.0);
  }

  /** No smaller speed constant would do: near the middle the mean slope approaches 15/8. */
  lemma BlendSpeedIsSharp(bound: real) returns (a: real, b: real)
    requires 0.0 <= bound < 1.875
    ensures 0.0 <= a < b <= 1.0 && Blend(b) - Blend(a) > bound * (b - a)
  {
    hide Blend, Slope;
    var h := (1.875 - bound) / 10.0;
    a, b := 0.5, 0.5 + h;
    assert a == 0.0 + 0.5 && b == h + 0.5 && h - 0.0 == h;
    DifferenceQuotient(0.0, h);
    SlopeFromMiddle(h);
    var slope := Slope(0.0 * 0.0 + h * h, 0.0 * h);
    StrictProduct(h, slope - bound);
    assert h * (slope - bound) == h * slope - bound * h;
  }

  lemma SlopeFromMiddle(h: real)
    requires 0.0 < h < 0.2
    ensures Slope(0.0 * 0.0 + h * h, 0.0 * h) > 1.875 - h
  {
    var q := h * h;
    Square(q);
    StrictProduct(h, 0.2 - h);
    assert Slope(q, 0.0) == 1.875 - 5.0 * q + 6.0 * (q * q);
  }

  lemma StrictProduct(a: real, b: real)
    requires a > 0.0 && b > 0.0
    ensures a * b > 0.0
  {}

  lemma AtMostByMiddle(p: real)
    requires 0.0 <= p <= 0.5
    ensures 54.0 * (p * ((0.5 - p) * (0.5 - p))) <= 1.0
  {
    var z := p - 1.0 / 6.0;
    Square(z);
    Product(z * z, 2.0 / 3.0 - p);
    CubicIdentity(p);
  }

  lemma CubicIdentity(p: real)
    ensures var z := p - 1.0 / 6.0;
            1.0 - 54.0 * (p * ((0.5 - p) * (0.5 - p))) == 54.0 * ((z * z) * (2.0 / 3.0 - p))
  {}

  /** The mean rate of change of BlendRate, and its square against 100/3. */
  lemma RateSlope(a: real, b: real) returns (slope: real)
    requires 0.0 <= a <= 1.0 && 0.0 <= b <= 1.0
    ensures BlendRate(b) - BlendRate(a) == slope * (b - a) && 3.0 * (slope * slope) <= 100.0
  {
    hide BlendRate;
    var x, y := a - 0.5, b - 0.5;
    var fall := 30.0 * ((x + y) * (0.5 - (x * x + y * y)));
    slope := -fall;
    CenteredRate(x);
    CenteredRate(y);
    RateDifference(x, y);
    RateSlopeSquared(x, y);
    assert y - x == b - a;
    assert slope * (b - a) == -((y - x) * fall);
    assert slope * slope == fall * fall;
  }

  /** The rate of change of the blend rate never exceeds 10 sqrt(3) / 3. */
  lemma BlendAcceleration(a: real, b: real, k: real)
    requires 0.0 <= a <= b <= 1.0 && IsAccelerationConstant(k)
    ensures Abs(BlendRate(b) - BlendRate(a)) <= k * (b - a)
  {
    hide BlendRate;
    var slope := RateSlope(a, b);
    AbsBySquare(slope, k);
    ScaleBound(b - a, slope, k);
  }

  lemma RateDifference(x: real, y: real)
    ensures 30.0 * (0.25 - y * y) * (0.25 - y * y) - 30.0 * (0.25 - x * x) * (0.25 - x * x)
         == -((y - x) * (30.0 * ((x + y) * (0.5 - (x * x + y * y)))))
  {
    var c, d := x * x, y * y;
    assert (0.25 - d) * (0.25 - d) - (0.25 - c) * (0.25 - c) == (c - d) * (0.5 - (c + d));
    assert c - d == -((y - x) * (x + y));
    assert ((y - x) * (x + y)) * (0.5 - (c + d)) == (y - x) * ((x + y) * (0.5 - (c + d)));
  }

  lemma RateSlopeSquared(x: real, y: real)
    requires -0.5 <= x <= 0.5 && -0.5 <= y <= 0.5
    ensures var slope := 30.0 * ((x + y) * (0.5 - (x * x + y * y))); slope * slope <= 100.0 / 3.0
  {
    var p, s := x * x + y * y, x + y;
    var q := (0.5 - p) * (0.5 - p);
    SquareAtMost(x);
    SquareAtMost(y);
    Square(x - y);
    Square(0.5 - p);
    assert s * s == 2.0 * p - (x - y) * (x - y);
    Product(2.0 * p - s * s, q);
    AtMostByMiddle(p);
    assert (2.0 * p - s * s) * q == 2.0 * (p * q) - s * s * q;
    SquareOfProduct(s, 0.5 - p);
  }

  lemma SquareOfProduct(s: real, t: real)
    ensures (30.0 * (s * t)) * (30.0 * (s * t)) == 900.0 * (s * s * (t * t))
  {}

  lemma AbsBySquare(v: real, k: real)
    requires k > 0.0 && v * v <= k * k
    ensures Abs(v) <= k
  {
    var d, t := Abs(v) - k, Abs(v) + k;
    assert d * t == v * v - k * k;
    if d > 0.0 { StrictProduct(d, t); }
  }

  lemma ScaleBound(h: real, v: real, k: real)
    requires h >= 0.0 && Abs(v) <= k
    ensures Abs(h * v) <= k * h && Abs(-(h * v)) <= k * h
  {
    Product(h, k - v);
    Product(h, k + v);
    assert h * (k - v) == k * h - h * v && h * (k + v) == k * h + h * v;
  }

  lemma SameProduct(r: real, s: real, d: real)
    requires r == s
    ensures r * d == s * d
  {}

  lemma SameStep(d: real, e: real, r: real, c: real)
    requires d == e
    ensures r * d == r * e && d * d * c == e * e * c
  {}

  /** A tangent error that is a multiple of the squared step is quadratic in it. */
  lemma QuadraticError(error: real, d: real, factor: real, bound: real)
    requires error == d * d * factor && Abs(factor) <= bound
    ensures Abs(error) <= bound * (d * d)
  {
    Square(d);
    ScaleBound(d * d, factor, bound);
  }

  lemma BlendTangentCentered(a: real, b: real, d: real, x: real, y: real)
    requires -0.5 <= x <= 0.5 && -0.5 <= y <= 0.5 && a == x + 0.5 && b == y + 0.5 && d == y - x
    ensures Abs(Blend(b) - Blend(a) - BlendRate(a) * d) <= 15.0 * (d * d)
  {
    hide Blend, BlendRate, Cube, Fifth, Curvature, Abs;
    CenteredBlend(x);
    CenteredBlend(y);
    CenteredRate(x);
    var rate := 30.0 * (0.25 - x * x) * (0.25 - x * x);
    SameProduct(BlendRate(a), rate, d);
    SameStep(d, y - x, rate, Curvature(x, y));
    TangentIdentity(x, y);
    CurvatureBound(x, y);
    QuadraticError(Blend(b) - Blend(a) - BlendRate(a) * d, d, Curvature(x, y), 15.0);
  }

  /** BlendRate is the derivative of Blend: the error of the tangent is quadratic. */
  lemma BlendTangent(a: real, b: real)
    requires 0.0 <= a <= 1.0 && 0.0 <= b <= 1.0
    ensures Abs(Blend(b) - Blend(a) - BlendRate(a) * (b - a)) <= 15.0 * ((b - a) * (b - a))
  {
    hide Blend, BlendRate, Abs;
    BlendTangentCentered(a, b, b - a, a - 0.5, b - 0.5);
  }

  function Curvature(x: real, y: real): real {
    6.0 * (y * y * y + 2.0 * (y * y * x) + 3.0 * (x * x * y) + 4.0 * (x * x * x)) - 5.0 * (y + 2.0 * x)
  }

  lemma TangentIdentity(x: real, y: real)
    ensures var d := y - x;
      (1.875 * y - 5.0 * Cube(y) + 6.0 * Fifth(y)) - (1.875 * x - 5.0 * Cube(x) + 6.0 * Fifth(x))
      - 30.0 * (0.25 - x * x) * (0.25 - x * x) * d
      == d * d * Curvature(x, y)
  {}

  lemma CubicTerm(s: real, t: real)
    requires -0.5 <= s <= 0.5 && -0.5 <= t <= 0.5
    ensures Abs(s * s * t) <= 0.125
  {
    SquareAtMost(s);
    ScaleBound(s * s, t, 0.5);
  }

  lemma CurvatureBound(x: real, y: real)
    requires -0.5 <= x <= 0.5 && -0.5 <= y <= 0.5
    ensures Abs(Curvature(x, y)) <= 15.0
  {
    CubicTerm(y, y);
    CubicTerm(y, x);
    CubicTerm(x, y);
    CubicTerm(x, x);
  }

  // ----- the second derivative

  lemma CenteredBend(x: real)
    ensures BlendBend(x + 0.5) == 120.0 * Cube(x) - 30.0 * x
  {}

  lemma CenteredRateExpanded(x: real)
    ensures BlendRate(x + 0.5) == 1.875 - 15.0 * (x * x) + 30.0 * ((x * x) * (x * x))
  {
    CenteredRate(x);
  }

  lemma MixedSquare(x: real, y: real)
    requires -0.5 <= x <= 0.5 && -0.5 <= y <= 0.5
    ensures 0.0 <= x * x + y * y + x * y <= 0.75
  {
    SquareAtMost(x);
    SquareAtMost(y);
    Square(x + y);
    Square(x - y);
    assert 2.0 * (x * x + y * y + x * y) == (x + y) * (x + y) + x * x + y * y;
    assert 2.0 * (x * x + y * y + x * y) == 3.0 * (x * x + y * y) - (x - y) * (x - y);
  }

  /** BlendBend changes at most 60 per unit of u. */
  lemma BendLipschitz(a: real, b: real)
    requires 0.0 <= a <= b <= 1.0
    ensures Abs(BlendBend(b) - BlendBend(a)) <= 60.0 * (b - a)
  {
    hide BlendBend, Abs;
    BendLipschitzCentered(a, b, b - a, a - 0.5, b - 0.5);
  }

  lemma BendLipschitzCentered(a: real, b: real, d: real, x: real, y: real)
    requires -0.5 <= x <= y <= 0.5 && a == x + 0.5 && b == y + 0.5 && d == y - x
    ensures Abs(BlendBend(b) - BlendBend(a)) <= 60.0 * d
  {
    hide BlendBend, Cube;
    CenteredBend(x);
    CenteredBend(y);
    CubeDifference(x, y);
    MixedSquare(x, y);
    var q := x * x + y * y + x * y;
    BendChange(BlendBend(b) - BlendBend(a), Cube(y) - Cube(x), y - x, q);
  }

  lemma BendChange(change: real, cubes: real, d: real, q: real)
    requires d >= 0.0 && 0.0 <= q <= 0.75 && cubes == d * q && change == 120.0 * cubes - 30.0 * d
    ensures Abs(change) <= 60.0 * d
  {
    ProductBounds(d, q, 0.75);
  }

  function RateCurvature(x: real, y: real): real { 30.0 * (y * y + 2.0 * (x * y) + 3.0 * (x * x)) - 15.0 }

  lemma RateCurvatureBound(x: real, y: real)
    requires -0.5 <= x <= 0.5 && -0.5 <= y <= 0.5
    ensures Abs(RateCurvature(x, y)) <= 60.0
  {
    SquareAtMost(x);
    SquareAtMost(y);
    Square(x - y);
    Square(x + y);
    assert 2.0 * (x * y) <= x * x + y * y by { assert (x - y) * (x - y) == x * x - 2.0 * (x * y) + y * y; }
    assert y * y + 2.0 * (x * y) + x * x == (x + y) * (x + y);
  }

  lemma RateTangentCentered(a: real, b: real, d: real, x: real, y: real)
    requires -0.5 <= x <= 0.5 && -0.5 <= y <= 0.5 && a == x + 0.5 && b == y + 0.5 && d == y - x
    ensures Abs(BlendRate(b) - BlendRate(a) - BlendBend(a) * d) <= 60.0 * (d * d)
  {
    hide BlendRate, BlendBend, Cube, RateCurvature, Abs;
    CenteredRateExpanded(x);
    CenteredRateExpanded(y);
    CenteredBend(x);
    var bend := 120.0 * Cube(x) - 30.0 * x;
    SameProduct(BlendBend(a), bend, d);
    SameStep(d, y - x, bend, RateCurvature(x, y));
    RateTangentIdentity(x, y);
    RateCurvatureBound(x, y);
    QuadraticError(BlendRate(b) - BlendRate(a) - BlendBend(a) * d, d, RateCurvature(x, y), 60.0);
  }

  /** BlendBend is the derivative of BlendRate. */
  lemma RateTangent(a: real, b: real)
    requires 0.0 <= a <= 1.0 && 0.0 <= b <= 1.0
    ensures Abs(BlendRate(b) - BlendRate(a) - BlendBend(a) * (b - a)) <= 60.0 * ((b - a) * (b - a))
  {
    hide BlendRate, BlendBend, Abs;
    RateTangentCentered(a, b, b - a, a - 0.5, b - 0.5);
  }

  lemma RateTangentIdentity(x: real, y: real)
    ensures var d := y - x;
      (1.875 - 15.0 * (y * y) + 30.0 * ((y * y) * (y * y))) - (1.875 - 15.0 * (x * x) + 30.0 * ((x * x) * (x * x)))
      - (120.0 * Cube(x) - 30.0 * x) * d
      == d * d * RateCurvature(x, y)
  {}
}
