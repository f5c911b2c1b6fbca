/**
 * The clock map of `crates/timebase/src/clock_mapper.rs` from its observations alone: what
 * every observation is answered, which points the window holds, and what a time maps to.
 */
module ClockRuns {
  import opened Common
  import opened ClockMapper

  /** The points taken since the latest reset, that of the reset included, and the number of resets. */
  datatype Log = Log(since: seq<Point>, resets: nat)

  function AfterAnswer(log: Log, p: Point, answer: Update): Log {
    match answer
    case Accepted => log.(since := log.since + [p])
    case RejectedOutlier => log
    case ResetAfterJump => Log([p], log.resets + 1)
  }

  function LogOf(cfg: Config, observations: seq<Point>): Log {
    if observations == [] then Log([], 0)
    else
      var n := |observations| - 1;
      AfterAnswer(LogOf(cfg, observations[..n]), observations[n],
                  ObserveStep(cfg, Observe(cfg, observations[..n]), observations[n]).0)
  }

  function Newest(points: seq<Point>, n: nat): seq<Point> {
    if |points| <= n then points else points[|points| - n..]
  }

  ghost predicate Follows(cfg: Config, m: Mapper, log: Log, observations: seq<Point>) {
    && m.points == Newest(log.since, cfg.maxSamples)
    && m.revision == Min(U64_MAX, 1 + log.resets)
    && m.lastSource == (if observations == [] then None else Some(observations[|observations| - 1].source))
  }

  lemma StepFollows(cfg: Config, m: Mapper, log: Log, observations: seq<Point>, p: Point)
    requires cfg.maxSamples >= 4 && Follows(cfg, m, log, observations)
    ensures var (answer, next) := ObserveStep(cfg, m, p);
            Follows(cfg, next, AfterAnswer(log, p, answer), observations + [p])
  {
    hide Fit, Residual;
  }

  /**
   * On every run the window is the newest `maxSamples` points taken since the latest reset,
   * the revision counts the resets up to its limit, and the source time to beat is the latest
   * one observed, even if that point was refused.
   */
  lemma {:induction false} WindowIsNewest(cfg: Config, observations: seq<Point>)
    requires cfg.maxSamples >= 4
    ensures Follows(cfg, Observe(cfg, observations), LogOf(cfg, observations), observations)
  {
    hide ObserveStep, AfterAnswer;
    if observations != [] {
      hide Follows;
      var n := |observations| - 1;
      WindowIsNewest(cfg, observations[..n]);
      StepFollows(cfg, Observe(cfg, observations[..n]), LogOf(cfg, observations[..n]), observations[..n], observations[n]);
      assert observations == observations[..n] + [observations[n]];
    }
  }

  function Predicted(model: Model, source: nat): real { model.slope * source as real + model.offset }

  /** How far a point is from what the model predicts for its source time. */
  function Miss(model: Model, p: Point): real {
    var predicted := Predicted(model, p.source);
    if predicted < p.edge as real then p.edge as real - predicted else predicted - p.edge as real
  }

  lemma MissIs(model: Model, p: Point)
    ensures Miss(model, p) == AbsReal(Residual(p, model.slope, model.offset))
  {
  }

  /**
   * On every run an observation resets the map exactly when its source time does not advance
   * or the model misses it by more than the jump limit; it is refused exactly when, short of
   * that, a window of four or more misses it by more than the residual limit.
   */
  lemma AnsweredOnEveryRun(cfg: Config, observations: seq<Point>, p: Point)
    requires cfg.maxSamples >= 4
    ensures var m := Observe(cfg, observations);
            var answer := ObserveStep(cfg, m, p).0;
            var back := observations != [] && p.source <= observations[|observations| - 1].source;
            var jump := |m.points| >= 2 && m.model.Some? && Miss(m.model.value, p) > cfg.jumpReset as real;
            && (|m.points| >= 2 <==> m.model.Some?)
            && (answer == ResetAfterJump <==> back || jump)
            && (answer == RejectedOutlier <==>
                  && !back && !jump && |m.points| >= 4 && m.model.Some? && Miss(m.model.value, p) > cfg.residualReject as real)
  {
    var m := Observe(cfg, observations);
    WindowOnEveryRun(cfg, observations);
    WindowIsNewest(cfg, observations);
    hide Observe, LogOf, Fit, SquaredError, Newest, Valid;
    if m.model.Some? {
      MissIs(m.model.value, p);
    }
  }

  /** The model carries the mean square, the size and the revision of these points. */
  ghost predicate Measures(model: Model, points: seq<Point>, revision: nat) {
    && model.sampleCount == |points| && model.revision == revision
    && model.meanSquare * |points| as real == SquaredError(points, model.slope, model.offset)
  }

  lemma FitMeasures(points: seq<Point>, revision: nat)
    requires Fit(points, revision).Some?
    ensures Measures(Fit(points, revision).value, points, revision)
  {
    var model := Fit(points, revision).value;
    var sum, n := SquaredError(points, model.slope, model.offset), |points| as real;
    assert model.meanSquare == Ratio(sum, n) && n > 0.0 && model.sampleCount == |points| && model.revision == revision;
    hide Fit, SquaredError, Ratio;
    TimesCount(sum, n);
  }

  lemma TimesCount(sum: real, n: real)
    requires n > 0.0
    ensures Ratio(sum, n) * n == sum
  {
  }

  /** On every run the model measures the window. */
  lemma ModelOnEveryRun(cfg: Config, observations: seq<Point>)
    requires cfg.maxSamples >= 4 && Observe(cfg, observations).model.Some?
    ensures var m := Observe(cfg, observations); Measures(m.model.value, m.points, m.revision)
  {
    hide Observe, Measures, Fit;
    FitOnEveryRun(cfg, observations);
    FitMeasures(Observe(cfg, observations).points, Observe(cfg, observations).revision);
  }

  lemma FitOnEveryRun(cfg: Config, observations: seq<Point>)
    requires cfg.maxSamples >= 4
    ensures var m := Observe(cfg, observations);
            m.model == Fit(m.points, m.revision) && (m.model.Some? <==> |m.points| >= 2)
  {
    WindowOnEveryRun(cfg, observations);
    hide Observe, Fit, SquaredError;
  }

  /** The prediction is a 64-bit number of nanoseconds, up to one past the last. */
  predicate InRange(predicted: real) { 0.0 <= predicted <= 0x1_0000_0000_0000_0000 as real }

  /** The nearest number of nanoseconds, halves up, within 64 bits. */
  predicate RoundsTo(predicted: real, value: int) {
    && 0 <= value <= U64_MAX && value as real - 0.5 <= predicted
    && (value < U64_MAX ==> predicted < value as real + 0.5)
  }

  lemma Rounded(predicted: real)
    ensures InRange(predicted) <==> !(predicted < 0.0 || predicted > (U64_MAX + 1) as real)
    ensures InRange(predicted) ==> RoundsTo(predicted, Min(U64_MAX, (predicted + 0.5).Floor))
  {
  }

  lemma MapsModel(m: Mapper, source: nat)
    requires m.model.Some?
    ensures var predicted := Predicted(m.model.value, source);
            MapTime(m, source) == if InRange(predicted) then Ok(Min(U64_MAX, (predicted + 0.5).Floor)) else Err(OutOfRange)
  {
    var predicted := Predicted(m.model.value, source);
    assert predicted == Mul(m.model.value.slope, source as real) + m.model.value.offset;
    hide Mul, Predicted;
    Rounded(predicted);
  }

  /**
   * On every run a time is mapped exactly when the window has two points and the prediction
   * is in range, and then to the nearest number of nanoseconds.
   */
  lemma MapsExactlyWhen(cfg: Config, observations: seq<Point>, source: nat)
    requires cfg.maxSamples >= 4
    ensures var m := Observe(cfg, observations);
            var mapped := MapTime(m, source);
            if |m.points| < 2 then mapped == Err(NotReady)
            else
              && m.model.Some?
              && var predicted := Predicted(m.model.value, source);
              if InRange(predicted) then mapped.Ok? && RoundsTo(predicted, mapped.value) else mapped == Err(OutOfRange)
  {
    FitOnEveryRun(cfg, observations);
    var m := Observe(cfg, observations);
    hide Observe, Fit, Predicted, RoundsTo, InRange;
    if m.model.Some? {
      MapsModel(m, source);
      Rounded(Predicted(m.model.value, source));
    }
  }
}
