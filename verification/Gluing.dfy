/** Bounds that hold on every piece of a piecewise function, and fit together at the
    boundaries, hold for every pair of times. */
module Gluing {
  import opened Common
  import opened Quintic

  /** When piece n starts. */
  function Start(n: nat, period: real): real { n as real * period }

  lemma NextStart(n: nat, period: real)
    ensures Start(n + 1, period) == Start(n, period) + period
    ensures Start(0, period) == 0.0
  {}

  lemma {:induction false} StartOrder(m: nat, n: nat, period: real)
    requires m <= n && period > 0.0
    ensures Start(m, period) <= Start(n, period)
    ensures m < n ==> Start(m, period) + period <= Start(n, period)
    decreases n - m
  {
    hide Start;
    if m < n {
      NextStart(m, period);
      StartOrder(m + 1, n, period);
    }
  }

  /** Which piece time `t` falls in; computed by division and truncation. */
  function Index(period: real, t: real): (n: nat)
    requires period > 0.0 && t >= 0.0
    ensures Start(n, period) <= t < Start(n + 1, period)
  {
    FloorBounds(period, t);
    (t / period).Floor
  }

  lemma FloorBounds(period: real, t: real)
    requires period > 0.0 && t >= 0.0
    ensures var n := (t / period).Floor; n >= 0 && Start(n, period) <= t < Start(n + 1, period)
  {
    FloorOfQuotient(period, t / period);
    assert t / period * period == t;
  }

  lemma FloorOfQuotient(period: real, q: real)
    requires period > 0.0 && q * period >= 0.0
    ensures q.Floor >= 0 && Start(q.Floor, period) <= q * period < Start(q.Floor + 1, period)
  {
    if q < 0.0 { StrictProduct(-q, period); }
    ScaleOrder(q.Floor as real, q, period);
    var next := q.Floor + 1;
    assert q < next as real;
    ScaleOrder(q, next as real, period);
    assert Start(next, period) == next as real * period;
  }

  lemma ScaleOrder(a: real, b: real, p: real)
    requires p > 0.0
    ensures a <= b ==> a * p <= b * p
    ensures a < b ==> a * p < b * p
  {
    assert (b - a) * p == b * p - a * p;
    if a < b { StrictProduct(b - a, p); }
  }

  lemma IndexUnique(period: real, t: real, n: nat)
    requires period > 0.0 && t >= 0.0 && Start(n, period) <= t < Start(n + 1, period)
    ensures Index(period, t) == n
  {
    hide Start;
    var m := Index(period, t);
    if m < n {
      StartOrder(m + 1, n, period);
    } else if m > n {
      StartOrder(n + 1, m, period);
    }
  }

  /** The function that runs `piece(0, .)`, `piece(1, .)`, ... for `period` each. */
  function Piecewise(piece: (nat, real) -> real, period: real, t: real): real
    requires period > 0.0 && t >= 0.0
  {
    var n := Index(period, t);
    piece(n, t - Start(n, period))
  }

  /** Each piece ends where the next one begins. */
  ghost predicate Joined(piece: (nat, real) -> real, period: real) {
    forall n: nat {:trigger piece(n, period)} :: piece(n, period) == piece(n + 1, 0.0)
  }

  /** A change of v over time h stays within speed `bound`. */
  ghost predicate Within(v: real, bound: real, h: real) {
    Abs(v) <= bound * h
  }

  lemma WithinSum(v: real, w: real, bound: real, h: real, g: real)
    requires Within(v, bound, h) && Within(w, bound, g)
    ensures Within(v + w, bound, h + g)
  {
    assert bound * (h + g) == bound * h + bound * g;
  }

  ghost predicate PieceLipschitz(piece: (nat, real) -> real, period: real, bound: real) {
    forall n: nat, x: real, y: real {:trigger piece(n, x), piece(n, y)} ::
      0.0 <= x <= y <= period ==> Within(piece(n, y) - piece(n, x), bound, y - x)
  }

  /** At a boundary the later piece is at its start. */
  lemma AtBoundary(piece: (nat, real) -> real, period: real, n: nat)
    requires period > 0.0
    ensures Start(n, period) >= 0.0 && Index(period, Start(n, period)) == n
    ensures Piecewise(piece, period, Start(n, period)) == piece(n, 0.0)
  {
    hide Start;
    NextStart(0, period);
    StartOrder(0, n, period);
    NextStart(n, period);
    IndexUnique(period, Start(n, period), n);
  }

  lemma Earlier(period: real, a: real, b: real)
    requires period > 0.0 && 0.0 <= a <= b
    ensures Index(period, a) <= Index(period, b)
  {
    hide Start;
    var m, n := Index(period, a), Index(period, b);
    if n < m { StartOrder(n + 1, m, period); }
  }

  /** A speed bound on every piece is a speed bound across all of them. */
  lemma {:induction false} GlueLipschitz(piece: (nat, real) -> real, period: real, bound: real, a: real, b: real)
    requires period > 0.0 && 0.0 <= a <= b
    requires Joined(piece, period) && PieceLipschitz(piece, period, bound)
    ensures Within(Piecewise(piece, period, b) - Piecewise(piece, period, a), bound, b - a)
    decreases Index(period, b) - Index(period, a)
  {
    hide Start, Within, PieceLipschitz, Joined;
    Earlier(period, a, b);
    var m, n := Index(period, a), Index(period, b);
    var x, y := a - Start(m, period), b - Start(n, period);
    NextStart(m, period);
    NextStart(n, period);
    if m == n {
      assert y - x == b - a;
      OnePiece(piece, period, bound, m, x, y);
    } else {
      var c := Start(m + 1, period);
      StartOrder(m + 1, n, period);
      AtBoundary(piece, period, m + 1);
      GlueLipschitz(piece, period, bound, c, b);
      CrossBoundary(piece, period, bound, m, x, Piecewise(piece, period, b), b - c);
      assert (period - x) + (b - c) == b - a;
    }
  }

  lemma OnePiece(piece: (nat, real) -> real, period: real, bound: real, n: nat, x: real, y: real)
    requires 0.0 <= x <= y <= period && PieceLipschitz(piece, period, bound)
    ensures Within(piece(n, y) - piece(n, x), bound, y - x)
  {}

  /** To the end of a piece, and from the start of the next for g more. */
  lemma CrossBoundary(piece: (nat, real) -> real, period: real, bound: real, m: nat, x: real, end: real, g: real)
    requires 0.0 <= x <= period && Joined(piece, period) && PieceLipschitz(piece, period, bound)
    requires Within(end - piece(m + 1, 0.0), bound, g)
    ensures Within(end - piece(m, x), bound, (period - x) + g)
  {
    hide Within;
    assert piece(m, period) == piece(m + 1, 0.0);
    assert Within(piece(m, period) - piece(m, x), bound, period - x);
    WithinSum(piece(m, period) - piece(m, x), end - piece(m, period), bound, period - x, g);
    assert (piece(m, period) - piece(m, x)) + (end - piece(m, period)) == end - piece(m, x);
  }

  // ----- tangents

  ghost predicate PieceTangent(piece: (nat, real) -> real, rate: (nat, real) -> real, period: real, bound: real) {
    forall n: nat, x: real, y: real {:trigger piece(n, x), piece(n, y)} ::
      0.0 <= x <= y <= period ==> TangentWithin(piece(n, x), piece(n, y), rate(n, x), y - x, bound)
  }

  /** Following the tangent with slope v for h misses f1 by at most bound * h^2. */
  ghost predicate TangentWithin(f0: real, f1: real, v: real, h: real, bound: real) {
    Abs(f1 - f0 - v * h) <= bound * (h * h)
  }

  /** If `rate` is the derivative on every piece and itself changes at most `bend` per unit
      of time, it is the derivative across all of them: the tangent error stays quadratic. */
  lemma {:induction false} GlueTangent(piece: (nat, real) -> real, rate: (nat, real) -> real, period: real,
                                       bend: real, bound: real, a: real, b: real)
    requires period > 0.0 && 0.0 <= a <= b && 0.0 <= bend <= 2.0 * bound
    requires Joined(piece, period) && Joined(rate, period)
    requires PieceLipschitz(rate, period, bend) && PieceTangent(piece, rate, period, bound)
    ensures TangentWithin(Piecewise(piece, period, a), Piecewise(piece, period, b), Piecewise(rate, period, a), b - a, bound)
    decreases Index(period, b) - Index(period, a)
  {
    hide Start, Within, TangentWithin;
    Earlier(period, a, b);
    var m, n := Index(period, a), Index(period, b);
    var x, y := a - Start(m, period), b - Start(n, period);
    NextStart(m, period);
    NextStart(n, period);
    if m == n {
      assert y - x == b - a;
      assert TangentWithin(piece(m, x), piece(m, y), rate(m, x), y - x, bound);
    } else {
      var c := Start(m + 1, period);
      StartOrder(m + 1, n, period);
      AtBoundary(piece, period, m + 1);
      AtBoundary(rate, period, m + 1);
      GlueTangent(piece, rate, period, bend, bound, c, b);
      assert piece(m, period) == piece(m + 1, 0.0) && rate(m, period) == rate(m + 1, 0.0);
      assert TangentWithin(piece(m, x), piece(m, period), rate(m, x), period - x, bound);
      assert Within(rate(m, period) - rate(m, x), bend, period - x);
      TwoTangents(piece(m, x), piece(m, period), Piecewise(piece, period, b), rate(m, x), rate(m, period),
                  period - x, b - c, bend, bound);
      assert (period - x) + (b - c) == b - a;
    }
  }

  /** The tangent at the first of three points, from the tangents at the first two. */
  lemma TwoTangents(f0: real, f1: real, f2: real, v0: real, v1: real, h: real, g: real, bend: real, bound: real)
    requires h >= 0.0 && g >= 0.0 && 0.0 <= bend <= 2.0 * bound
    requires TangentWithin(f0, f1, v0, h, bound) && TangentWithin(f1, f2, v1, g, bound)
    requires Within(v1 - v0, bend, h)
    ensures TangentWithin(f0, f2, v0, h + g, bound)
  {
    var e := v1 - v0;
    CrossTerm(e, h, g, bend, bound);
    TangentSplit(v0, v1, h, g);
    SquareOfSum(bound, h, g);
    var first, second, bent := f1 - f0 - v0 * h, f2 - f1 - v1 * g, e * g;
    assert f2 - f0 - v0 * (h + g) == first + second + bent;
  }

  lemma TangentSplit(v0: real, v1: real, h: real, g: real)
    ensures v0 * (h + g) == v1 * g + v0 * h - (v1 - v0) * g
  {}

  lemma SquareOfSum(bound: real, h: real, g: real)
    ensures bound * ((h + g) * (h + g)) == bound * (h * h) + 2.0 * (bound * (h * g)) + bound * (g * g)
  {}

  lemma CrossTerm(e: real, h: real, g: real, bend: real, bound: real)
    requires h >= 0.0 && g >= 0.0 && 0.0 <= bend <= 2.0 * bound && Abs(e) <= bend * h
    ensures Abs(e * g) <= 2.0 * (bound * (h * g))
  {
    Product(g, bend * h - e);
    Product(g, bend * h + e);
    assert g * (bend * h - e) == bend * (h * g) - e * g;
    assert g * (bend * h + e) == bend * (h * g) + e * g;
    Product(h, g);
    Product(h * g, 2.0 * bound - bend);
    assert (h * g) * (2.0 * bound - bend) == 2.0 * (bound * (h * g)) - bend * (h * g);
  }
}
