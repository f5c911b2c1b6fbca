/**
 * The affine clock map of `crates/timebase/src/clock_mapper.rs`, over the reals:
 * its window, its least-squares fit, and the order of the times it maps.
 */
module ClockMapper {
  import opened Common

  datatype Point = Point(source: nat, edge: nat)

  datatype Config = Config(maxSamples: nat, residualReject: nat, jumpReset: nat)

  /** `meanSquare` is the square of the source's `residual_rms_ns`. */
  datatype Model = Model(slope: real, offset: real, meanSquare: real, revision: nat, sampleCount: nat)

  datatype Update = Accepted | RejectedOutlier | ResetAfterJump

  datatype ClockError = NotReady | OutOfRange

  /** 2 to the power -52, `f64::EPSILON`. */
  const EPSILON := 1.0 / 4503599627370496.0

  // ---- Sums over the window, about a centre (c, d) ----

  function X(p: Point): real { p.source as real }

  function Y(p: Point): real { p.edge as real }

  /** Products and quotients by name, so that sums can be handled without their algebra. */
  function Mul(a: real, b: real): real { a * b }

  function Ratio(a: real, b: real): real
    requires b != 0.0
  {
    a / b
  }

  function SumX(points: seq<Point>, c: real): real {
    if points == [] then 0.0 else SumX(points[..|points| - 1], c) + (X(points[|points| - 1]) - c)
  }

  function SumY(points: seq<Point>, d: real): real {
    if points == [] then 0.0 else SumY(points[..|points| - 1], d) + (Y(points[|points| - 1]) - d)
  }

  function SumXY(points: seq<Point>, c: real, d: real): real {
    if points == [] then 0.0
    else SumXY(points[..|points| - 1], c, d) + Mul(X(points[|points| - 1]) - c, Y(points[|points| - 1]) - d)
  }

  function SumXX(points: seq<Point>, c: real): real {
    if points == [] then 0.0
    else SumXX(points[..|points| - 1], c) + Mul(X(points[|points| - 1]) - c, X(points[|points| - 1]) - c)
  }

  function SumYY(points: seq<Point>, d: real): real {
    if points == [] then 0.0
    else SumYY(points[..|points| - 1], d) + Mul(Y(points[|points| - 1]) - d, Y(points[|points| - 1]) - d)
  }

  function Residual(p: Point, slope: real, offset: real): real { Mul(slope, X(p)) + offset - Y(p) }

  /** The sum of squared residuals of an affine map. */
  function SquaredError(points: seq<Point>, slope: real, offset: real): real {
    if points == [] then 0.0
    else
      SquaredError(points[..|points| - 1], slope, offset)
      + Mul(Residual(points[|points| - 1], slope, offset), Residual(points[|points| - 1], slope, offset))
  }

  // ---- The fit ----

  /** The mean of the sources, computed about the first one. */
  function CentreX(points: seq<Point>): real
    requires points != []
  {
    X(points[0]) + Ratio(SumX(points, X(points[0])), |points| as real)
  }

  function CentreY(points: seq<Point>): real
    requires points != []
  {
    Y(points[0]) + Ratio(SumY(points, Y(points[0])), |points| as real)
  }

  function Fit(points: seq<Point>, revision: nat): Option<Model> {
    if |points| < 2 then None
    else
      var (c, d) := (CentreX(points), CentreY(points));
      var variance := SumXX(points, c);
      if variance <= EPSILON then None
      else
        var slope := Ratio(SumXY(points, c, d), variance);
        var offset := d - Mul(slope, c);
        Some(Model(slope, offset, Ratio(SquaredError(points, slope, offset), |points| as real), revision, |points|))
  }

  lemma {:induction false} SumXShift(points: seq<Point>, c: real, k: real)
    ensures SumX(points, c + k) == SumX(points, c) - |points| as real * k
  {
    if points != [] {
      SumXShift(points[..|points| - 1], c, k);
    }
  }

  lemma {:induction false} SumYShift(points: seq<Point>, d: real, k: real)
    ensures SumY(points, d + k) == SumY(points, d) - |points| as real * k
  {
    if points != [] {
      SumYShift(points[..|points| - 1], d, k);
    }
  }

  /** One more point in every sum. */
  lemma SumsOfLast(points: seq<Point>, c: real, d: real)
    requires points != []
    ensures var front, x, y := points[..|points| - 1], X(points[|points| - 1]) - c, Y(points[|points| - 1]) - d;
            && SumX(points, c) == SumX(front, c) + x && SumY(points, d) == SumY(front, d) + y
            && SumXY(points, c, d) == SumXY(front, c, d) + Mul(x, y)
            && SumXX(points, c) == SumXX(front, c) + Mul(x, x) && SumYY(points, d) == SumYY(front, d) + Mul(y, y)
            && |points| as real == |front| as real + 1.0
  {
  }

  /** The mixed sum about a centre moved by (u, v), from the sums about the old one. */
  function Shifted(s: real, a: real, b: real, n: real, u: real, v: real): real {
    s - v * a - u * b + n * (u * v)
  }

  lemma ShiftStep(s: real, a: real, b: real, n: real, x: real, y: real, u: real, v: real)
    ensures Shifted(s, a, b, n, u, v) + Mul(x - u, y - v) == Shifted(s + Mul(x, y), a + x, b + y, n + 1.0, u, v)
  {
  }

  lemma {:induction false} SumXYShift(points: seq<Point>, c: real, d: real, u: real, v: real)
    ensures SumXY(points, c + u, d + v) ==
            Shifted(SumXY(points, c, d), SumX(points, c), SumY(points, d), |points| as real, u, v)
  {
    if points != [] {
      hide SumX, SumY, SumXY, SumXX, SumYY, X, Y, Mul, Shifted;
      var front, p := points[..|points| - 1], points[|points| - 1];
      SumXYShift(front, c, d, u, v);
      SumsOfLast(points, c, d);
      SumsOfLast(points, c + u, d + v);
      var x, y := X(p) - c, Y(p) - d;
      assert X(p) - (c + u) == x - u && Y(p) - (d + v) == y - v;
      ShiftStep(SumXY(front, c, d), SumX(front, c), SumY(front, d), |front| as real, x, y, u, v);
    }
  }

  /** About the means both first sums vanish. */
  lemma Centred(points: seq<Point>)
    requires points != []
    ensures SumX(points, CentreX(points)) == 0.0 && SumY(points, CentreY(points)) == 0.0
  {
    var n := |points| as real;
    SumXShift(points, X(points[0]), Ratio(SumX(points, X(points[0])), n));
    SumYShift(points, Y(points[0]), Ratio(SumY(points, Y(points[0])), n));
    DivMul(SumX(points, X(points[0])), n);
    DivMul(SumY(points, Y(points[0])), n);
  }

  lemma DivMul(a: real, n: real)
    requires n != 0.0
    ensures n * Ratio(a, n) == a
  {
  }

  // ---- Least squares ----

  lemma SquareExpand(a: real, u: real, v: real, e: real)
    ensures (a * u - v + e) * (a * u - v + e) ==
            a * a * (u * u) - 2.0 * a * (u * v) + v * v + e * e + 2.0 * e * (a * u - v)
  {
  }

  /** The right-hand side of the expansion, as a function of the five sums. */
  function Expanded(a: real, e: real, n: real, xx: real, xy: real, yy: real, x: real, y: real): real {
    a * a * xx - 2.0 * a * xy + yy + n * (e * e) + 2.0 * e * (a * x - y)
  }

  /** The constant term of an affine map about a centre. */
  function Intercept(a: real, b: real, c: real, d: real): real { a * c + b - d }

  predicate ResidualIs(r: real, a: real, u: real, v: real, e: real) { r == a * u - v + e }

  lemma ExpandStep(
      a: real, e: real, n: real, xx: real, xy: real, yy: real, x: real, y: real, u: real, v: real, r: real)
    requires ResidualIs(r, a, u, v, e)
    ensures Expanded(a, e, n, xx, xy, yy, x, y) + Mul(r, r) ==
            Expanded(a, e, n + 1.0, xx + Mul(u, u), xy + Mul(u, v), yy + Mul(v, v), x + u, y + v)
  {
    SquareExpand(a, u, v, e);
  }

  lemma ResidualAbout(p: Point, a: real, b: real, c: real, d: real)
    ensures ResidualIs(Residual(p, a, b), a, X(p) - c, Y(p) - d, Intercept(a, b, c, d))
  {
    assert a * X(p) == a * (X(p) - c) + a * c;
  }

  /** The squared error of any affine map, in terms of the sums about a centre. */
  lemma {:induction false} ErrorExpand(points: seq<Point>, a: real, b: real, c: real, d: real)
    ensures SquaredError(points, a, b) ==
            Expanded(a, Intercept(a, b, c, d), |points| as real, SumXX(points, c), SumXY(points, c, d),
                     SumYY(points, d), SumX(points, c), SumY(points, d))
  {
    if points != [] {
      hide SumX, SumY, SumXY, SumXX, SumYY, Expanded, Intercept, ResidualIs, Residual, X, Y, Mul;
      var front, p := points[..|points| - 1], points[|points| - 1];
      var u, v, e := X(p) - c, Y(p) - d, Intercept(a, b, c, d);
      ErrorExpand(front, a, b, c, d);
      SumsOfLast(points, c, d);
      ResidualAbout(p, a, b, c, d);
      ExpandStep(a, e, |front| as real, SumXX(front, c), SumXY(front, c, d), SumYY(front, d), SumX(front, c), SumY(front, d),
                 u, v, Residual(p, a, b));
    }
  }

  lemma NonNegativeSquare(x: real)
    ensures x * x >= 0.0
  {
  }

  lemma Complete(v: real, k: real, s: real, a: real)
    requires k == s * v
    ensures a * a * v - 2.0 * a * k == s * s * v - 2.0 * s * k + v * ((a - s) * (a - s))
  {
  }

  predicate SlopeIs(xy: real, s: real, xx: real) { xy == s * xx }

  /** No affine map has a smaller sum of squared residuals over the window than the fitted one. */
  lemma FitIsOptimal(points: seq<Point>, revision: nat, a: real, b: real)
    requires Fit(points, revision).Some?
    ensures var m := Fit(points, revision).value;
            SquaredError(points, m.slope, m.offset) <= SquaredError(points, a, b)
  {
    hide SumX, SumY, SumXY, SumXX, SquaredError, CentreX, CentreY, Mul, Ratio, SlopeIs;
    var m, c, d := Fit(points, revision).value, CentreX(points), CentreY(points);
    Centred(points);
    RatioIsSlope(SumXY(points, c, d), SumXX(points, c));
    OptimalAbout(points, m.slope, m.offset, a, b, c, d);
  }

  lemma RatioIsSlope(xy: real, xx: real)
    requires xx > EPSILON
    ensures xx > 0.0 && SlopeIs(xy, Ratio(xy, xx), xx)
  {
    DivMul(xy, xx);
  }

  lemma OptimalAbout(points: seq<Point>, s: real, o: real, a: real, b: real, c: real, d: real)
    requires SumX(points, c) == 0.0 && SumY(points, d) == 0.0 && SumXX(points, c) > 0.0
    requires SlopeIs(SumXY(points, c, d), s, SumXX(points, c)) && o == d - Mul(s, c)
    ensures SquaredError(points, s, o) <= SquaredError(points, a, b)
  {
    hide SumX, SumY, SumXY, SumXX, SumYY, SquaredError, Expanded, SlopeIs;
    ErrorExpand(points, s, o, c, d);
    ErrorExpand(points, a, b, c, d);
    assert Intercept(s, o, c, d) == 0.0;
    ExpandedOrder(s, a, Intercept(a, b, c, d), |points| as real, SumXX(points, c), SumXY(points, c, d), SumYY(points, d));
  }

  lemma ExpandedOrder(s: real, a: real, e: real, n: real, xx: real, xy: real, yy: real)
    requires xx > 0.0 && SlopeIs(xy, s, xx) && n >= 0.0
    ensures Expanded(s, 0.0, n, xx, xy, yy, 0.0, 0.0) <= Expanded(a, e, n, xx, xy, yy, 0.0, 0.0)
  {
    Complete(xx, xy, s, a);
    NonNegativeSquare(a - s);
    NonNegativeSquare(e);
    NonNegativeProduct(xx, (a - s) * (a - s));
    NonNegativeProduct(n, e * e);
  }

  lemma NonNegativeProduct(x: real, y: real)
    requires x >= 0.0 && y >= 0.0
    ensures x * y >= 0.0
  {
  }

  // ---- The sign of the slope, by pairs of points ----

  /** The sum over all pairs of the product of their differences. */
  function Pairs(points: seq<Point>): real {
    if points == [] then 0.0
    else
      var p := points[|points| - 1];
      Pairs(points[..|points| - 1]) + SumXY(points[..|points| - 1], X(p), Y(p))
  }

  /** n times a mixed sum less the product of the two plain ones. */
  function Centre(n: real, s: real, x: real, y: real): real { n * s - x * y }

  lemma PairStep(n: real, s: real, x: real, y: real, u: real, v: real)
    ensures Centre(n + 1.0, s + Mul(u, v), x + u, y + v) == Centre(n, s, x, y) + Shifted(s, x, y, n, u, v)
  {
  }

  lemma PairsOfLast(points: seq<Point>)
    requires points != []
    ensures var front, p := points[..|points| - 1], points[|points| - 1];
            Pairs(points) == Pairs(front) + SumXY(front, X(p), Y(p))
  {
  }

  /** n times the covariance is the sum over pairs. */
  lemma {:induction false} PairsIdentity(points: seq<Point>, c: real, d: real)
    ensures Centre(|points| as real, SumXY(points, c, d), SumX(points, c), SumY(points, d)) == Pairs(points)
  {
    if points != [] {
      hide SumX, SumY, SumXY, SumXX, SumYY, Pairs, X, Y, Mul, Centre, Shifted;
      var front, p := points[..|points| - 1], points[|points| - 1];
      var u, v := X(p) - c, Y(p) - d;
      PairsIdentity(front, c, d);
      PairsOfLast(points);
      SumsOfLast(points, c, d);
      SumXYShift(front, c, d, u, v);
      assert c + u == X(p) && d + v == Y(p);
      PairStep(|front| as real, SumXY(front, c, d), SumX(front, c), SumY(front, d), u, v);
    }
  }

  ghost predicate SourcesIncrease(points: seq<Point>) {
    forall i, j :: 0 <= i < j < |points| ==> points[i].source < points[j].source
  }

  ghost predicate EdgesOrdered(points: seq<Point>) {
    forall i, j :: 0 <= i < j < |points| ==> points[i].edge <= points[j].edge
  }

  lemma {:induction false} CrossNonNegative(points: seq<Point>, p: Point)
    requires forall i :: 0 <= i < |points| ==> points[i].source <= p.source && points[i].edge <= p.edge
    ensures SumXY(points, X(p), Y(p)) >= 0.0
  {
    if points != [] {
      var q := points[|points| - 1];
      CrossNonNegative(points[..|points| - 1], p);
      NonNegativeProduct(X(p) - X(q), Y(p) - Y(q));
      assert (X(q) - X(p)) * (Y(q) - Y(p)) == (X(p) - X(q)) * (Y(p) - Y(q));
    }
  }

  lemma {:induction false} PairsNonNegative(points: seq<Point>)
    requires SourcesIncrease(points) && EdgesOrdered(points)
    ensures Pairs(points) >= 0.0
  {
    if points != [] {
      PairsNonNegative(points[..|points| - 1]);
      CrossNonNegative(points[..|points| - 1], points[|points| - 1]);
    }
  }

  /** The window with every edge time replaced by its source time. */
  function Diagonal(points: seq<Point>): (r: seq<Point>)
    ensures |r| == |points| && forall i :: 0 <= i < |r| ==> r[i] == Point(points[i].source, points[i].source)
  {
    seq(|points|, i requires 0 <= i < |points| => Point(points[i].source, points[i].source))
  }

  lemma {:induction false} VarianceIsDiagonal(points: seq<Point>, c: real)
    ensures SumXX(points, c) == SumXY(Diagonal(points), c, c)
    ensures SumX(Diagonal(points), c) == SumX(points, c) == SumY(Diagonal(points), c)
  {
    if points != [] {
      var n := |points| - 1;
      VarianceIsDiagonal(points[..n], c);
      assert Diagonal(points)[..n] == Diagonal(points[..n]);
    }
  }

  lemma {:induction false} DiagonalCross(points: seq<Point>, p: Point)
    requires p.source == p.edge
    requires forall i :: 0 <= i < |points| ==> points[i].source == points[i].edge && points[i].source < p.source
    ensures SumXY(points, X(p), Y(p)) >= |points| as real
  {
    if points != [] {
      var q := points[|points| - 1];
      DiagonalCross(points[..|points| - 1], p);
      var gap := X(p) - X(q);
      assert gap >= 1.0;
      NonNegativeProduct(gap - 1.0, gap + 1.0);
      assert (X(q) - X(p)) * (Y(q) - Y(p)) == gap * gap;
    }
  }

  lemma {:induction false} DiagonalPairs(points: seq<Point>)
    requires SourcesIncrease(points) && points != []
    ensures Pairs(Diagonal(points)) >= |points| as real - 1.0
  {
    var n := |points| - 1;
    var diagonal := Diagonal(points);
    assert diagonal[..n] == Diagonal(points[..n]);
    DiagonalCross(diagonal[..n], diagonal[n]);
    if n > 0 {
      DiagonalPairs(points[..n]);
    }
  }

  /** Distinct integer sources have a variance far above the threshold. */
  lemma VarianceIsLarge(points: seq<Point>)
    requires SourcesIncrease(points) && |points| >= 2
    ensures SumXX(points, CentreX(points)) >= 0.5 && 0.5 > EPSILON
  {
    hide SumX, SumY, SumXY, SumXX, Pairs, CentreX, CentreY;
    var n, c := |points| as real, CentreX(points);
    Centred(points);
    VarianceIsDiagonal(points, c);
    PairsIdentity(Diagonal(points), c, c);
    DiagonalPairs(points);
    LargeFactor(n, SumXX(points, c));
  }

  lemma LargeFactor(n: real, v: real)
    requires n >= 2.0 && n * v >= n - 1.0
    ensures v >= 0.5
  {
    if v < 0.5 {
      SmallerProduct(n, v, 0.5);
    }
  }

  lemma SmallerProduct(n: real, v: real, w: real)
    requires n > 0.0 && v < w
    ensures n * v < n * w
  {
  }

  /** A model exists exactly when two or more points remain. */
  lemma FitExists(points: seq<Point>, revision: nat)
    requires SourcesIncrease(points)
    ensures Fit(points, revision).Some? <==> |points| >= 2
  {
    if |points| >= 2 {
      VarianceIsLarge(points);
    }
  }

  /** When edge times do not decrease, the slope is never negative. */
  lemma SlopeNonNegative(points: seq<Point>, revision: nat)
    requires SourcesIncrease(points) && EdgesOrdered(points) && Fit(points, revision).Some?
    ensures Fit(points, revision).value.slope >= 0.0
  {
    var n, c, d := |points| as real, CentreX(points), CentreY(points);
    Centred(points);
    PairsIdentity(points, c, d);
    PairsNonNegative(points);
    var k, v := SumXY(points, c, d), SumXX(points, c);
    assert n * k >= 0.0;
    NonNegativeFactor(n, k);
    NonNegativeQuotient(k, v);
  }

  lemma NonNegativeFactor(n: real, k: real)
    requires n > 0.0 && n * k >= 0.0
    ensures k >= 0.0
  {
  }

  lemma NonNegativeQuotient(k: real, v: real)
    requires k >= 0.0 && v > 0.0
    ensures Ratio(k, v) >= 0.0
  {
  }

  // ---- The mapper ----

  datatype Mapper = Mapper(points: seq<Point>, model: Option<Model>, revision: nat, lastSource: Option<nat>)

  function NewMapper(): Mapper { Mapper([], None, 1, None) }

  function PushPoint(cfg: Config, m: Mapper, p: Point): Mapper {
    var kept := if |m.points| == cfg.maxSamples && m.points != [] then m.points[1..] else m.points;
    Mapper(kept + [p], Fit(kept + [p], m.revision), m.revision, Some(p.source))
  }

  function Reset(m: Mapper): Mapper { Mapper([], None, SaturatingInc(m.revision), None) }

  function AbsReal(x: real): real { if x < 0.0 then -x else x }

  function ObserveStep(cfg: Config, m: Mapper, p: Point): (Update, Mapper) {
    if m.lastSource.Some? && p.source <= m.lastSource.value then (ResetAfterJump, PushPoint(cfg, Reset(m), p))
    else if m.model.Some? && AbsReal(Residual(p, m.model.value.slope, m.model.value.offset)) > cfg.jumpReset as real then
      (ResetAfterJump, PushPoint(cfg, Reset(m), p))
    else if && m.model.Some? && |m.points| >= 4
            && AbsReal(Residual(p, m.model.value.slope, m.model.value.offset)) > cfg.residualReject as real
    then (RejectedOutlier, m.(lastSource := Some(p.source)))
    else (Accepted, PushPoint(cfg, m, p))
  }

  function Observe(cfg: Config, observations: seq<Point>): Mapper {
    if observations == [] then NewMapper()
    else ObserveStep(cfg, Observe(cfg, observations[..|observations| - 1]), observations[|observations| - 1]).1
  }

  ghost predicate Valid(cfg: Config, m: Mapper) {
    && |m.points| <= cfg.maxSamples
    && SourcesIncrease(m.points)
    && (m.points != [] ==> m.lastSource.Some? && m.points[|m.points| - 1].source <= m.lastSource.value)
    && m.model == Fit(m.points, m.revision)
  }

  lemma PushKeepsValid(cfg: Config, m: Mapper, p: Point)
    requires cfg.maxSamples >= 4 && Valid(cfg, m)
    requires m.points != [] ==> m.points[|m.points| - 1].source < p.source
    ensures Valid(cfg, PushPoint(cfg, m, p))
  {
    hide Fit;
    var kept := if |m.points| == cfg.maxSamples && m.points != [] then m.points[1..] else m.points;
    var all := kept + [p];
    forall i, j | 0 <= i < j < |all|
      ensures all[i].source < all[j].source
    {
      assert kept != [] ==> kept[|kept| - 1] == m.points[|m.points| - 1];
    }
  }

  lemma ObserveKeepsValid(cfg: Config, m: Mapper, p: Point)
    requires cfg.maxSamples >= 4 && Valid(cfg, m)
    ensures Valid(cfg, ObserveStep(cfg, m, p).1)
  {
    assert Fit([], SaturatingInc(m.revision)) == None;
    if ObserveStep(cfg, m, p).0 == ResetAfterJump {
      PushKeepsValid(cfg, Reset(m), p);
    } else if ObserveStep(cfg, m, p).0 == Accepted {
      PushKeepsValid(cfg, m, p);
    }
  }

  /**
   * On every run: the window's sources strictly increase, it holds at most
   * `maxSamples` points, a model exists exactly when two points remain, and that
   * model is the least-squares one.
   */
  lemma {:induction false} WindowOnEveryRun(cfg: Config, observations: seq<Point>)
    requires cfg.maxSamples >= 4
    ensures var m := Observe(cfg, observations);
            && Valid(cfg, m) && (m.model.Some? <==> |m.points| >= 2)
            && (m.model.Some? ==> forall a: real, b: real ::
                  SquaredError(m.points, m.model.value.slope, m.model.value.offset) <= SquaredError(m.points, a, b))
  {
    if observations != [] {
      WindowOnEveryRun(cfg, observations[..|observations| - 1]);
      ObserveKeepsValid(cfg, Observe(cfg, observations[..|observations| - 1]), observations[|observations| - 1]);
    }
    var m := Observe(cfg, observations);
    FitExists(m.points, m.revision);
    if m.model.Some? {
      forall a: real, b: real
        ensures SquaredError(m.points, m.model.value.slope, m.model.value.offset) <= SquaredError(m.points, a, b)
      {
        FitIsOptimal(m.points, m.revision, a, b);
      }
    }
  }

  /** With non-decreasing edge times, the window's edge times do not decrease and end at or before the latest. */
  lemma {:induction false} EdgesOnEveryRun(cfg: Config, observations: seq<Point>)
    requires EdgesOrdered(observations)
    ensures var points := Observe(cfg, observations).points;
            && EdgesOrdered(points)
            && (points != [] ==>
                  observations != [] && points[|points| - 1].edge <= observations[|observations| - 1].edge)
  {
    hide Fit, Residual;
    if observations != [] {
      EdgesOnEveryRun(cfg, observations[..|observations| - 1]);
      var m, p := Observe(cfg, observations[..|observations| - 1]), observations[|observations| - 1];
      EdgesAfter(cfg, m, p);
    }
  }

  lemma EdgesAfter(cfg: Config, m: Mapper, p: Point)
    requires EdgesOrdered(m.points) && (m.points != [] ==> m.points[|m.points| - 1].edge <= p.edge)
    ensures var points := ObserveStep(cfg, m, p).1.points;
            EdgesOrdered(points) && (points != [] ==> points[|points| - 1].edge <= p.edge)
  {
    hide Fit, Residual;
    var kept := if |m.points| == cfg.maxSamples && m.points != [] then m.points[1..] else m.points;
    assert kept != [] ==> kept[|kept| - 1] == m.points[|m.points| - 1];
    EdgesSnoc(kept, p);
    EdgesSnoc([], p);
  }

  lemma EdgesSnoc(points: seq<Point>, p: Point)
    requires EdgesOrdered(points) && (points != [] ==> points[|points| - 1].edge <= p.edge)
    ensures EdgesOrdered(points + [p])
  {
    var all := points + [p];
    forall i, j | 0 <= i < j < |all|
      ensures all[i].edge <= all[j].edge
    {
      assert i < |points| - 1 ==> points[i].edge <= points[|points| - 1].edge;
    }
  }

  // ---- Mapping ----

  function MapTime(m: Mapper, source: nat): Result<nat, ClockError> {
    if m.model.None? then Err(NotReady)
    else
      var mapped := Mul(m.model.value.slope, source as real) + m.model.value.offset;
      if mapped < 0.0 || mapped > (U64_MAX + 1) as real then Err(OutOfRange)
      else Ok(Min(U64_MAX, (mapped + 0.5).Floor))
  }

  lemma FloorMonotone(x: real, y: real)
    requires x <= y
    ensures x.Floor <= y.Floor
  {
  }

  lemma ScaleMonotone(slope: real, s: nat, t: nat)
    requires slope >= 0.0 && s <= t
    ensures slope * s as real <= slope * t as real
  {
    NonNegativeProduct(slope, (t - s) as real);
    assert slope * (t - s) as real == slope * t as real - slope * s as real;
  }

  /** On every run with non-decreasing edge times, mapping preserves the order of source times. */
  lemma MappingPreservesOrder(cfg: Config, observations: seq<Point>, s: nat, t: nat)
    requires cfg.maxSamples >= 4 && EdgesOrdered(observations) && s <= t
    requires MapTime(Observe(cfg, observations), s).Ok? && MapTime(Observe(cfg, observations), t).Ok?
    ensures MapTime(Observe(cfg, observations), s).value <= MapTime(Observe(cfg, observations), t).value
  {
    hide Fit, Observe, SquaredError;
    WindowOnEveryRun(cfg, observations);
    EdgesOnEveryRun(cfg, observations);
    var m := Observe(cfg, observations);
    SlopeNonNegative(m.points, m.revision);
    ScaledOrder(m, s, t);
  }

  lemma ScaledOrder(m: Mapper, s: nat, t: nat)
    requires s <= t && m.model.Some? && m.model.value.slope >= 0.0 && MapTime(m, s).Ok? && MapTime(m, t).Ok?
    ensures MapTime(m, s).value <= MapTime(m, t).value
  {
    var slope, offset := m.model.value.slope, m.model.value.offset;
    ScaleMonotone(slope, s, t);
    FloorMonotone(slope * s as real + offset + 0.5, slope * t as real + offset + 0.5);
  }

  // ---- The source's loops and object ----

  method FitPoints(points: seq<Point>, revision: nat) returns (model: Option<Model>)
    ensures model == Fit(points, revision)
  {
    hide Mul, Ratio, X, Y;
    if |points| < 2 {
      return None;
    }
    var n := |points| as real;
    var sumX, sumY := 0.0, 0.0;
    for i := 0 to |points|
      invariant sumX == SumX(points[..i], X(points[0])) && sumY == SumY(points[..i], Y(points[0]))
    {
      assert points[..i + 1][..i] == points[..i];
      sumX := sumX + (X(points[i]) - X(points[0]));
      sumY := sumY + (Y(points[i]) - Y(points[0]));
    }
    assert points[..|points|] == points;
    var c, d := X(points[0]) + Ratio(sumX, n), Y(points[0]) + Ratio(sumY, n);
    var covariance, variance := 0.0, 0.0;
    for i := 0 to |points|
      invariant covariance == SumXY(points[..i], c, d) && variance == SumXX(points[..i], c)
    {
      assert points[..i + 1][..i] == points[..i];
      var x, y := X(points[i]) - c, Y(points[i]) - d;
      covariance := covariance + Mul(x, y);
      variance := variance + Mul(x, x);
    }
    assert c == CentreX(points) && d == CentreY(points);
    assert variance == SumXX(points, c) && covariance == SumXY(points, c, d);
    if variance <= EPSILON {
      return None;
    }
    var slope := Ratio(covariance, variance);
    var offset := d - Mul(slope, c);
    var squares := SumSquares(points, slope, offset);
    return Some(Model(slope, offset, Ratio(squares, n), revision, |points|));
  }

  method SumSquares(points: seq<Point>, slope: real, offset: real) returns (squares: real)
    ensures squares == SquaredError(points, slope, offset)
  {
    hide Mul, Residual;
    squares := 0.0;
    for i := 0 to |points|
      invariant squares == SquaredError(points[..i], slope, offset)
    {
      assert points[..i + 1][..i] == points[..i];
      var residual := Residual(points[i], slope, offset);
      squares := squares + Mul(residual, residual);
    }
    assert points[..|points|] == points;
  }

  class ClockWindow {
    const cfg: Config
    var points: seq<Point>
    var model: Option<Model>
    var revision: nat
    var lastSource: Option<nat>

    ghost function State(): Mapper
      reads this
    {
      Mapper(points, model, revision, lastSource)
    }

    constructor (cfg: Config)
      requires cfg.maxSamples >= 4
      ensures this.cfg == cfg && State() == NewMapper()
    {
      this.cfg := cfg;
      points, model, revision, lastSource := [], None, 1, None;
    }

    method ObserveOne(source: nat, edge: nat) returns (update: Update)
      modifies this
      ensures (update, State()) == ObserveStep(cfg, old(State()), Point(source, edge))
    {
      hide Fit;
      var p := Point(source, edge);
      if lastSource.Some? && source <= lastSource.value {
        ResetWindow();
        PushOne(p);
        return ResetAfterJump;
      }
      if model.Some? {
        var residual := AbsReal(Residual(p, model.value.slope, model.value.offset));
        if residual > cfg.jumpReset as real {
          ResetWindow();
          PushOne(p);
          return ResetAfterJump;
        }
        if |points| >= 4 && residual > cfg.residualReject as real {
          lastSource := Some(source);
          return RejectedOutlier;
        }
      }
      PushOne(p);
      return Accepted;
    }

    method PushOne(p: Point)
      modifies this
      ensures State() == PushPoint(cfg, old(State()), p)
    {
      hide Fit;
      if |points| == cfg.maxSamples && points != [] {
        points := points[1..];
      }
      points := points + [p];
      lastSource := Some(p.source);
      model := FitPoints(points, revision);
    }

    method ResetWindow()
      modifies this
      ensures State() == Reset(old(State()))
    {
      points, model, lastSource := [], None, None;
      revision := SaturatingInc(revision);
    }
  }
}
