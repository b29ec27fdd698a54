/** One segment of a trajectory: a shape on [0, 1] stretched over `transition` seconds and
    scaled, then held. The unit bounds of the shape turn into bounds in seconds. */
module Segment {
  import opened Common
  import opened Quintic
  import opened Gluing

  /** `min(1, x / transition)`. */
  function Progress(transition: real, x: real): real
    requires transition > 0.0
  {
    if x < transition then x / transition else 1.0
  }

  function Scaled(shape: real -> real, scale: real, transition: real, x: real): real
    requires transition > 0.0
  {
    scale * shape(Progress(transition, x))
  }

  lemma ProgressBounds(transition: real, x: real, y: real)
    requires transition > 0.0 && 0.0 <= x <= y
    ensures 0.0 <= Progress(transition, x) <= Progress(transition, y) <= 1.0
    ensures (Progress(transition, y) - Progress(transition, x)) * transition <= y - x
  {
    var u, w := Progress(transition, x), Progress(transition, y);
    Quotient(x, transition);
    Quotient(y, transition);
    assert (w - u) * transition == w * transition - u * transition;
    Unscale(0.0, x, transition);
    Unscale(x, y, transition);
    if x < transition { Unscale(x, transition, transition); }
    if y < transition { Unscale(y, transition, transition); }
    Quotient(transition, transition);
    Quotient(0.0, transition);
  }

  lemma Quotient(x: real, t: real)
    requires t > 0.0
    ensures x / t * t == x
  {}

  lemma Unscale(x: real, y: real, t: real)
    requires t > 0.0 && x <= y
    ensures x / t <= y / t
  {
    var p, q := x / t, y / t;
    Quotient(x, t);
    Quotient(y, t);
    if p > q { StrictProduct(p - q, t); }
  }

  /** `shape` is Lipschitz on the unit interval. */
  ghost predicate UnitLipschitz(shape: real -> real, unit: real) {
    forall u, w {:trigger shape(u), shape(w)} :: 0.0 <= u <= w <= 1.0 ==> Abs(shape(w) - shape(u)) <= unit * (w - u)
  }

  /** `rate` is the derivative of `shape` on the unit interval. */
  ghost predicate UnitTangent(shape: real -> real, rate: real -> real, unit: real) {
    forall u, w {:trigger shape(u), shape(w)} :: 0.0 <= u <= w <= 1.0 ==> TangentWithin(shape(u), shape(w), rate(u), w - u, unit)
  }

  lemma BlendIsRegular()
    ensures UnitLipschitz(Blend, 1.875) && UnitTangent(Blend, BlendRate, 15.0)
  {
    hide Blend, BlendRate;
    forall u, w | 0.0 <= u <= w <= 1.0
      ensures Abs(Blend(w) - Blend(u)) <= 1.875 * (w - u)
      ensures TangentWithin(Blend(u), Blend(w), BlendRate(u), w - u, 15.0)
    {
      BlendSpeed(u, w);
      BlendTangent(u, w);
    }
  }

  lemma RateIsRegular()
    ensures UnitTangent(BlendRate, BlendBend, 60.0) && UnitLipschitz(BlendBend, 60.0)
  {
    hide BlendRate, BlendBend;
    forall u, w | 0.0 <= u <= w <= 1.0
      ensures TangentWithin(BlendRate(u), BlendRate(w), BlendBend(u), w - u, 60.0)
    {
      RateTangent(u, w);
    }
    forall u, w | 0.0 <= u <= w <= 1.0
      ensures Abs(BlendBend(w) - BlendBend(u)) <= 60.0 * (w - u)
    {
      BendLipschitz(u, w);
    }
  }

  lemma Chain(v: real, scale: real, unit: real, d: real, transition: real, bound: real, h: real)
    requires unit >= 0.0 && d >= 0.0 && transition > 0.0 && bound >= 0.0
    requires Abs(v) <= unit * d && d * transition <= h && Abs(scale) * unit <= bound * transition
    ensures Within(scale * v, bound, h)
  {
    var s := Abs(scale);
    Product(s, unit * d - v);
    Product(s, unit * d + v);
    assert s * (unit * d - v) == (s * unit) * d - s * v;
    assert s * (unit * d + v) == (s * unit) * d + s * v;
    Product(bound * transition - s * unit, d);
    assert (bound * transition - s * unit) * d == bound * (d * transition) - (s * unit) * d;
    Product(bound, h - d * transition);
    assert bound * (h - d * transition) == bound * h - bound * (d * transition);
    assert scale * v == s * v || scale * v == -(s * v);
  }

  lemma ScaledLipschitz(shape: real -> real, unit: real, scale: real, transition: real, bound: real, x: real, y: real)
    requires transition > 0.0 && bound >= 0.0 && unit >= 0.0 && UnitLipschitz(shape, unit)
    requires Abs(scale) * unit <= bound * transition && 0.0 <= x <= y
    ensures Within(Scaled(shape, scale, transition, y) - Scaled(shape, scale, transition, x), bound, y - x)
  {
    hide Progress;
    var u, w := Progress(transition, x), Progress(transition, y);
    ProgressBounds(transition, x, y);
    Chain(shape(w) - shape(u), scale, unit, w - u, transition, bound, y - x);
    assert scale * (shape(w) - shape(u)) == scale * shape(w) - scale * shape(u);
  }

  /** Scaling a shape scales its tangent error. */
  lemma AmplifiedTangent(f0: real, f1: real, v: real, d: real, unit: real, scale: real,
                         g0: real, g1: real, w: real, c: real)
    requires TangentWithin(f0, f1, v, d, unit)
    requires g0 == scale * f0 && g1 == scale * f1 && w == scale * v && c == Abs(scale) * unit
    ensures TangentWithin(g0, g1, w, d, c)
  {
    var e, s, q := f1 - f0 - v * d, Abs(scale), d * d;
    Product(s, unit * q - e);
    Product(s, unit * q + e);
    assert s * (unit * q - e) == (s * unit) * q - s * e;
    assert s * (unit * q + e) == (s * unit) * q + s * e;
    assert scale * e == s * e || scale * e == -(s * e);
    assert scale * f1 - scale * f0 - (scale * v) * d == scale * e;
  }

  /** Stretching time by `transition` divides the derivative by it. */
  lemma StretchedTangent(g0: real, g1: real, w: real, r: real, d: real, h: real, unit: real, transition: real, bound: real)
    requires TangentWithin(g0, g1, w, d, unit) && unit <= bound * (transition * transition)
    requires d * transition == h && r * transition == w
    ensures TangentWithin(g0, g1, r, h, bound)
  {
    assert r * h == w * d;
    Square(d);
    Product(bound * (transition * transition) - unit, d * d);
    StretchedSquare(bound, transition, d, h);
  }

  lemma StretchedSquare(bound: real, transition: real, d: real, h: real)
    requires d * transition == h
    ensures bound * (transition * transition) * (d * d) == bound * (h * h)
  {
    assert (d * transition) * (d * transition) == (transition * transition) * (d * d);
  }

  /** The scaled rate is the derivative of the scaled shape, through the transition, the
      hold after it and across the instant between them. */
  lemma ScaledTangent(shape: real -> real, rate: real -> real, unit: real, scale: real, slope: real, transition: real,
                      bend: real, bound: real, x: real, y: real)
    requires transition > 0.0 && slope * transition == scale && UnitTangent(shape, rate, unit) && rate(1.0) == 0.0
    requires Abs(scale) * unit <= bound * (transition * transition) && 0.0 <= bend <= 2.0 * bound
    requires 0.0 <= x <= y
    requires x < transition ==> Within(Scaled(rate, slope, transition, transition)
                                       - Scaled(rate, slope, transition, x), bend, transition - x)
    ensures TangentWithin(Scaled(shape, scale, transition, x), Scaled(shape, scale, transition, y),
                          Scaled(rate, slope, transition, x), y - x, bound)
  {
    hide Within, TangentWithin, Scaled;
    var s0, s1 := Scaled(shape, scale, transition, x), Scaled(shape, scale, transition, y);
    var r0 := Scaled(rate, slope, transition, x);
    HeldAfterTransition(shape, scale, transition, y);
    if x >= transition {
      HeldAfterTransition(shape, scale, transition, x);
      HeldAfterTransition(rate, slope, transition, x);
      FlatTangent(s0, y - x, bound);
    } else if y <= transition {
      InsideTangent(shape, rate, unit, scale, slope, transition, bound, x, y);
    } else {
      InsideTangent(shape, rate, unit, scale, slope, transition, bound, x, transition);
      FlatTangent(s1, y - transition, bound);
      HeldAfterTransition(rate, slope, transition, transition);
      TwoTangents(s0, s1, s1, r0, 0.0, transition - x, y - transition, bend, bound);
      assert (transition - x) + (y - transition) == y - x;
    }
  }

  lemma HeldAfterTransition(shape: real -> real, scale: real, transition: real, x: real)
    requires transition > 0.0
    ensures x >= transition ==> Scaled(shape, scale, transition, x) == Scaled(shape, scale, transition, transition)
    ensures x >= transition && shape(1.0) == 0.0 ==> Scaled(shape, scale, transition, x) == 0.0
  {}

  lemma FlatTangent(f: real, h: real, bound: real)
    requires bound >= 0.0
    ensures TangentWithin(f, f, 0.0, h, bound)
  {
    Square(h);
    Product(bound, h * h);
  }

  lemma InsideTangent(shape: real -> real, rate: real -> real, unit: real, scale: real, slope: real, transition: real,
                      bound: real, x: real, y: real)
    requires transition > 0.0 && slope * transition == scale && UnitTangent(shape, rate, unit)
    requires Abs(scale) * unit <= bound * (transition * transition) && 0.0 <= x <= y <= transition
    ensures TangentWithin(Scaled(shape, scale, transition, x), Scaled(shape, scale, transition, y),
                          Scaled(rate, slope, transition, x), y - x, bound)
  {
    hide TangentWithin, Progress;
    var u, w := Progress(transition, x), Progress(transition, y);
    AtProgress(transition, x);
    AtProgress(transition, y);
    ProgressBounds(transition, x, y);
    ScaledGap(w, u, transition);
    assert TangentWithin(shape(u), shape(w), rate(u), w - u, unit);
    var g0, g1 := Scaled(shape, scale, transition, x), Scaled(shape, scale, transition, y);
    var r, v, c := Scaled(rate, slope, transition, x), scale * rate(u), Abs(scale) * unit;
    AmplifiedTangent(shape(u), shape(w), rate(u), w - u, unit, scale, g0, g1, v, c);
    assert r * transition == v by { assert slope * rate(u) * transition == slope * transition * rate(u); }
    StretchedTangent(g0, g1, v, r, w - u, y - x, c, transition, bound);
  }

  lemma ScaledGap(q: real, r: real, p: real)
    ensures (q - r) * p == q * p - r * p
  {}

  lemma AtProgress(transition: real, x: real)
    requires transition > 0.0 && x <= transition
    ensures Progress(transition, x) * transition == x
  {
    Quotient(x, transition);
  }
}
