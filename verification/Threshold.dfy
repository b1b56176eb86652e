/** Threshold projection (internal/forecast/evaluator.go): when a table's counter will reach its limit. */
module Threshold {
  import opened RealFacts
  import opened Basics
  import opened Regression

  datatype Operation = Vacuum | Analyze

  datatype TableThresholds = TableThresholds(effectiveVacuumLimit: real, effectiveAnalyzeLimit: real)

  datatype Status = InsufficientData | Overdue | NotNeeded | Imminent | Predicted

  datatype MaintenanceForecast = MaintenanceForecast(
    operation: Operation, thresholdValue: real, status: Status, currentValue: real,
    accumulationRate: real, timeUntilSec: real, predictedAt: Option<int>)

  /** Whole seconds since the epoch. */
  function Unix(p: MetricPoint): int { p.timestamp / SECOND }

  function Limit(t: TableThresholds, op: Operation): real {
    if op.Vacuum? then t.effectiveVacuumLimit else t.effectiveAnalyzeLimit
  }

  ghost function Seconds(points: seq<MetricPoint>): (xs: seq<real>)
    ensures |xs| == |points|
  {
    seq(|points|, i requires 0 <= i < |points| => (Unix(points[i]) - Unix(points[0])) as real)
  }

  ghost function Values(points: seq<MetricPoint>): (ys: seq<real>)
    ensures |ys| == |points|
  {
    seq(|points|, i requires 0 <= i < |points| => points[i].value)
  }

  /** `rate` is the least-squares growth per second, 0 when there are no two distinct seconds. */
  ghost predicate IsRate(points: seq<MetricPoint>, rate: real) {
    if |points| < 2 || Denom(Seconds(points)) == 0.0 then rate == 0.0
    else Denom(Seconds(points)) > 0.0 && rate * Denom(Seconds(points)) == Cov(Seconds(points), Values(points))
  }

  /** Two distinct seconds keep the regression out of its degenerate branch. */
  lemma SecondsSpread(points: seq<MetricPoint>, i: nat, j: nat)
    requires i < j < |points| && Unix(points[i]) != Unix(points[j])
    ensures Denom(Seconds(points)) >= 1.0
  {
    var xs := Seconds(points);
    var k := Unix(points[i]) - Unix(points[j]);
    assert xs[i] - xs[j] == k as real;
    hide *;
    DenomNonNegative(xs, i, j);
    IntegerGap(xs[i], xs[j], k);
  }

  lemma IntegerGap(u: real, x: real, k: int)
    requires k != 0 && u - x == k as real
    ensures Gap(u, u, x, x) >= 1.0
  {
    var gap := u - x;
    IntegerSquare(k, gap, gap * gap);
  }

  lemma IntegerSquare(k: int, gap: real, s: real)
    requires k != 0 && gap == k as real && s == gap * gap
    ensures s >= 1.0
  {
    var a := if k > 0 then k as real else -(k as real);
    assert a >= 1.0 && s == a * a;
    assert a * a >= a;
  }

  lemma DenomZeroOrOne(points: seq<MetricPoint>)
    requires |points| > 0
    ensures Denom(Seconds(points)) == 0.0 || Denom(Seconds(points)) >= 1.0
  {
    var xs := Seconds(points);
    if i, j :| 0 <= i < j < |points| && Unix(points[i]) != Unix(points[j]) {
      SecondsSpread(points, i, j);
    } else {
      CovIsPairSum(xs, xs);
      SameXsPairSum(xs, xs, |xs|);
    }
  }

  method ComputeRate(points: seq<MetricPoint>) returns (rate: real)
    ensures IsRate(points, rate)
  {
    if |points| < 2 {
      return 0.0;
    }
    var xs: seq<real>, ys: seq<real> := [], [];
    var base := Unix(points[0]);
    for i := 0 to |points|
      invariant xs == Seconds(points)[..i] && ys == Values(points)[..i]
    {
      xs := xs + [(Unix(points[i]) - base) as real];
      ys := ys + [points[i].value];
    }
    var o := LinearRegression(xs, ys);
    assert xs == Seconds(points) && ys == Values(points);
    DenomZeroOrOne(points);
    rate := o.result.slope;
    RateOfFit(points, o.result);
  }

  lemma RateOfFit(points: seq<MetricPoint>, r: LinearRegressionResult)
    requires |points| >= 2 && IsFit(Seconds(points), Values(points), r)
    requires Denom(Seconds(points)) == 0.0 || Denom(Seconds(points)) >= 1.0
    ensures IsRate(points, r.slope)
  {
    hide Denom, Cov, LeastSquares, RSquared, Mean;
    var xs, ys := Seconds(points), Values(points);
    if Denom(xs) >= 1.0 {
      LeastSquaresSlope(xs, ys, r.slope, r.intercept);
    }
  }

  /** What an evaluation promises for a history: the statuses partition all inputs, and a prediction
      puts the crossing exactly where the current value grows to the limit. */
  ghost predicate IsForecast(f: MaintenanceForecast, op: Operation, limit: real, points: seq<MetricPoint>,
                             minDataPoints: int, now: int) {
    && f.operation == op && f.thresholdValue == limit
    && (f.status.InsufficientData? <==> |points| < minDataPoints)
    && (f.status.InsufficientData? ==>
          f.currentValue == 0.0 && f.accumulationRate == 0.0 && f.timeUntilSec == 0.0 && f.predictedAt == None)
    && (!f.status.InsufficientData? ==> points != [] && f.currentValue == points[|points| - 1].value)
    && (!f.status.InsufficientData? ==> (f.status.Overdue? <==> f.currentValue >= limit))
    && (f.status.Overdue? ==> f.accumulationRate == 0.0 && f.timeUntilSec == 0.0 && f.predictedAt == None)
    && (f.status.NotNeeded? || f.status.Imminent? || f.status.Predicted? ==> IsRate(points, f.accumulationRate))
    && (f.status.NotNeeded? ==> f.accumulationRate <= 0.0 && f.timeUntilSec == 0.0 && f.predictedAt == None)
    && (f.status.Imminent? || f.status.Predicted? ==>
          && f.accumulationRate > 0.0 && f.timeUntilSec > 0.0
          && f.currentValue + f.accumulationRate * f.timeUntilSec == limit
          && f.predictedAt == Some(now + (f.timeUntilSec * SECOND as real).Floor)
          && (f.status.Imminent? <==> f.timeUntilSec <= 3600.0))
  }

  /** `evaluateVacuum` and `evaluateAnalyze`: the same code on two counters and two limits. The source
      indexes the last point, so an empty history needs a positive minimum. */
  method Evaluate(t: TableThresholds, op: Operation, points: seq<MetricPoint>, minDataPoints: int, now: int)
    returns (f: MaintenanceForecast)
    requires points != [] || minDataPoints > 0
    ensures IsForecast(f, op, Limit(t, op), points, minDataPoints, now)
    ensures op.Vacuum? ==> f.thresholdValue == t.effectiveVacuumLimit
    ensures op.Analyze? ==> f.thresholdValue == t.effectiveAnalyzeLimit
  {
    var limit := Limit(t, op);
    f := MaintenanceForecast(op, limit, InsufficientData, 0.0, 0.0, 0.0, None);
    if |points| < minDataPoints {
      return;
    }
    var currentValue := points[|points| - 1].value;
    f := f.(currentValue := currentValue);
    if currentValue >= limit {
      f := f.(status := Overdue);
      return;
    }
    var rate := ComputeRate(points);
    f := f.(accumulationRate := rate);
    if rate <= 0.0 {
      f := f.(status := NotNeeded);
      return;
    }
    hide IsRate;
    var remaining := limit - currentValue;
    var timeToThreshold := remaining / rate;
    TimeIsExact(remaining, rate, timeToThreshold);
    f := f.(timeUntilSec := timeToThreshold,
            predictedAt := Some(now + (timeToThreshold * SECOND as real).Floor),
            status := if timeToThreshold <= 3600.0 then Imminent else Predicted);
  }

  lemma TimeIsExact(remaining: real, rate: real, time: real)
    requires remaining > 0.0 && rate > 0.0 && time == remaining / rate
    ensures rate * time == remaining && time > 0.0
  {
    QuotientTimes(remaining, rate);
    assert time <= 0.0 ==> rate * time <= 0.0;
  }

  ghost predicate OnLine(points: seq<MetricPoint>, a: real, b: real) {
    forall k :: 0 <= k < |points| ==> On(Unix(points[k]) as real, points[k].value, a, b)
  }

  /** A linear history over two distinct seconds gives its own rate back. */
  lemma LinearHistory(points: seq<MetricPoint>, rate: real, a: real, b: real, i: nat, j: nat)
    requires IsRate(points, rate) && i < j < |points| && Unix(points[i]) != Unix(points[j])
    requires OnLine(points, a, b)
    ensures rate == a
  {
    hide OnLine, Seconds, Values, Unix, Cov, Denom;
    SecondsSpread(points, i, j);
    LinearCov(points, a, b);
    SameFactor(rate, a, Denom(Seconds(points)));
  }

  lemma LinearCov(points: seq<MetricPoint>, a: real, b: real)
    requires points != [] && OnLine(points, a, b)
    ensures Cov(Seconds(points), Values(points)) == a * Denom(Seconds(points))
  {
    hide Seconds, Values, OnLine, Cov, Denom, On;
    var c := LineFromFirst(points, a, b);
    LinearData(Seconds(points), Values(points), a, c);
  }

  /** The same line with seconds counted from the first point. */
  lemma LineFromFirst(points: seq<MetricPoint>, a: real, b: real) returns (c: real)
    requires points != [] && OnLine(points, a, b)
    ensures forall k :: 0 <= k < |points| ==> On(Seconds(points)[k], Values(points)[k], a, c)
  {
    hide On;
    var shift := Unix(points[0]) as real;
    c := a * shift + b;
    forall k | 0 <= k < |points| ensures On(Seconds(points)[k], Values(points)[k], a, c) {
      LinearPoint(points[k].value, Unix(points[k]) as real, shift, a, b, c);
    }
  }

  lemma LinearPoint(v: real, u: real, shift: real, a: real, b: real, c: real)
    requires On(u, v, a, b) && c == a * shift + b
    ensures On(u - shift, v, a, c)
  {
    Linear(a, u - shift, shift);
  }

  lemma SameFactor(p: real, q: real, d: real)
    requires d != 0.0 && p * d == q * d
    ensures p == q
  {
    assert (p - q) * d == 0.0;
  }

  ghost predicate StrictlyLater(points: seq<MetricPoint>) {
    forall i, j :: 0 <= i < j < |points| ==> Unix(points[i]) < Unix(points[j])
  }

  ghost predicate Growing(points: seq<MetricPoint>) {
    && (forall i, j :: 0 <= i < j < |points| ==> points[i].value <= points[j].value)
    && |points| > 1 && points[0].value < points[|points| - 1].value
  }

  lemma GrowingRate(points: seq<MetricPoint>, rate: real)
    requires IsRate(points, rate) && StrictlyLater(points) && Growing(points)
    ensures rate > 0.0
  {
    var xs, ys := Seconds(points), Values(points);
    SecondsSpread(points, 0, 1);
    MonotoneData(xs, ys);
    assert rate <= 0.0 ==> rate * Denom(xs) <= 0.0;
  }

  /** A counter that never falls and did grow is never reported as not needing maintenance. */
  lemma GrowingNeverNotNeeded(f: MaintenanceForecast, op: Operation, limit: real, points: seq<MetricPoint>,
                              minDataPoints: int, now: int)
    requires IsForecast(f, op, limit, points, minDataPoints, now) && StrictlyLater(points) && Growing(points)
    ensures !f.status.NotNeeded?
  {
    if f.status.NotNeeded? { GrowingRate(points, f.accumulationRate); }
  }

  /** Whole seconds, rounded down. */
  lemma UnixIs(p: MetricPoint)
    ensures Unix(p) * 1_000_000_000 <= p.timestamp < (Unix(p) + 1) * 1_000_000_000
  {
  }

  /** The predicted time is that many seconds from now, cut to the nanosecond, and never in the past. */
  lemma PredictedAtMeans(f: MaintenanceForecast, op: Operation, limit: real, points: seq<MetricPoint>,
                         minDataPoints: int, now: int)
    requires IsForecast(f, op, limit, points, minDataPoints, now)
    ensures f.predictedAt.Some? <==> f.status.Imminent? || f.status.Predicted?
    ensures f.predictedAt.Some? ==>
              var nanos := f.timeUntilSec * 1000000000.0;
              f.predictedAt.value >= now && nanos - 1.0 < (f.predictedAt.value - now) as real <= nanos
  {
    hide IsRate;
    if f.predictedAt.Some? {
      var nanos := f.timeUntilSec * SECOND as real;
      assert nanos == f.timeUntilSec * 1000000000.0;
      PositiveProduct(f.timeUntilSec, 1000000000.0, nanos);
    }
  }
}
