/** `LinearRegression` (internal/ml/linear.go) over mathematical reals. Sums run over the first `n` points. */
module Regression {
  import opened RealFacts

  datatype LinearRegressionResult = LinearRegressionResult(slope: real, intercept: real, rSquared: real, n: nat)

  datatype FitResult = TooFewPoints | LengthMismatch | Fit(result: LinearRegressionResult)

  const EPSILON: real := 0.000000000000001

  ghost function Sum(xs: seq<real>, n: nat): real
    requires n <= |xs|
  {
    if n == 0 then 0.0 else Sum(xs, n - 1) + xs[n - 1]
  }

  ghost function Dot(xs: seq<real>, ys: seq<real>, n: nat): real
    requires n <= |xs| && n <= |ys|
  {
    if n == 0 then 0.0 else Dot(xs, ys, n - 1) + xs[n - 1] * ys[n - 1]
  }

  /** The squared error of the line `a * x + b`. */
  ghost function Sse(xs: seq<real>, ys: seq<real>, a: real, b: real, n: nat): real
    requires n <= |xs| && n <= |ys|
  {
    if n == 0 then 0.0 else
      Sse(xs, ys, a, b, n - 1) + SquaredError(xs[n - 1], ys[n - 1], a, b)
  }

  ghost function SquaredError(x: real, y: real, a: real, b: real): real {
    (y - (a * x + b)) * (y - (a * x + b))
  }

  /** No line has a smaller squared error. */
  ghost predicate LeastSquares(xs: seq<real>, ys: seq<real>, a: real, b: real)
    requires |xs| == |ys|
  {
    forall c: real, d: real :: Sse(xs, ys, a, b, |xs|) <= Sse(xs, ys, c, d, |xs|)
  }

  /** n * sum(x*y) - sum(x) * sum(y); with ys == xs it is the denominator of the slope. */
  ghost function Cov(xs: seq<real>, ys: seq<real>): real
    requires |xs| == |ys|
  {
    CovForm(|xs| as real, Dot(xs, ys, |xs|), Sum(xs, |xs|), Sum(ys, |xs|))
  }

  ghost function CovForm(n: real, sxy: real, sx: real, sy: real): real { n * sxy - sx * sy }

  ghost function Denom(xs: seq<real>): real { Cov(xs, xs) }

  ghost function Mean(ys: seq<real>): real
    requires |ys| > 0
  {
    Sum(ys, |ys|) / |ys| as real
  }

  /** The sum over j < n of (x_j - x) * (y_j - y). */
  ghost function Spread(xs: seq<real>, ys: seq<real>, x: real, y: real, n: nat): real
    requires n <= |xs| && n <= |ys|
  {
    if n == 0 then 0.0 else Spread(xs, ys, x, y, n - 1) + Gap(xs[n - 1], ys[n - 1], x, y)
  }

  ghost function Gap(u: real, v: real, x: real, y: real): real { (u - x) * (v - y) }

  /** The sum over i < j < n of (x_i - x_j) * (y_i - y_j). */
  ghost function PairSum(xs: seq<real>, ys: seq<real>, n: nat): real
    requires n <= |xs| && n <= |ys|
  {
    if n == 0 then 0.0 else PairSum(xs, ys, n - 1) + Spread(xs, ys, xs[n - 1], ys[n - 1], n - 1)
  }

  ghost function SpreadForm(n: real, sxy: real, sx: real, sy: real, x: real, y: real): real {
    sxy - y * sx - x * sy + n * (x * y)
  }

  /** The running sums of `LinearRegression` after one more point. */
  ghost predicate Extends(n: real, sxy: real, sx: real, sy: real, u: real, v: real,
                          n': real, sxy': real, sx': real, sy': real) {
    n' == n + 1.0 && sxy' == sxy + u * v && sx' == sx + u && sy' == sy + v
  }

  lemma SumsExtend(xs: seq<real>, ys: seq<real>, n: nat)
    requires 0 < n <= |xs| && n <= |ys|
    ensures Extends((n - 1) as real, Dot(xs, ys, n - 1), Sum(xs, n - 1), Sum(ys, n - 1), xs[n - 1], ys[n - 1],
                    n as real, Dot(xs, ys, n), Sum(xs, n), Sum(ys, n))
  {
  }

  lemma SpreadStep(n: real, sxy: real, sx: real, sy: real, x: real, y: real, u: real, v: real,
                   n': real, sxy': real, sx': real, sy': real)
    requires Extends(n, sxy, sx, sy, u, v, n', sxy', sx', sy')
    ensures SpreadForm(n', sxy', sx', sy', x, y) == SpreadForm(n, sxy, sx, sy, x, y) + Gap(u, v, x, y)
  {
    assert (u - x) * (v - y) == u * v - y * u - x * v + x * y;
    assert y * sx' == y * sx + y * u && x * sy' == x * sy + x * v;
    assert n' * (x * y) == n * (x * y) + x * y;
  }

  lemma SpreadFormZero(x: real, y: real)
    ensures SpreadForm(0.0, 0.0, 0.0, 0.0, x, y) == 0.0
  {
  }

  lemma {:induction false} SpreadExpands(xs: seq<real>, ys: seq<real>, x: real, y: real, n: nat)
    requires n <= |xs| && n <= |ys|
    ensures Spread(xs, ys, x, y, n) == SpreadForm(n as real, Dot(xs, ys, n), Sum(xs, n), Sum(ys, n), x, y)
  {
    hide SpreadForm, Extends, Gap;
    if n == 0 {
      SpreadFormZero(x, y);
    } else {
      hide Dot, Sum;
      SpreadExpands(xs, ys, x, y, n - 1);
      SumsExtend(xs, ys, n);
      SpreadStep((n - 1) as real, Dot(xs, ys, n - 1), Sum(xs, n - 1), Sum(ys, n - 1), x, y, xs[n - 1], ys[n - 1],
                 n as real, Dot(xs, ys, n), Sum(xs, n), Sum(ys, n));
    }
  }

  lemma CovStep(n: real, sxy: real, sx: real, sy: real, u: real, v: real,
                n': real, sxy': real, sx': real, sy': real)
    requires Extends(n, sxy, sx, sy, u, v, n', sxy', sx', sy')
    ensures CovForm(n', sxy', sx', sy') == CovForm(n, sxy, sx, sy) + SpreadForm(n, sxy, sx, sy, u, v)
  {
    assert n' * sxy' == n * sxy + n * (u * v) + sxy + u * v;
    assert sx' * sy' == sx * sy + sx * v + u * sy + u * v;
  }

  lemma {:induction false} PairSumIs(xs: seq<real>, ys: seq<real>, n: nat)
    requires n <= |xs| && n <= |ys|
    ensures CovForm(n as real, Dot(xs, ys, n), Sum(xs, n), Sum(ys, n)) == PairSum(xs, ys, n)
  {
    if n > 0 {
      hide CovForm, SpreadForm, Spread, Dot, Sum, Extends;
      PairSumIs(xs, ys, n - 1);
      SpreadExpands(xs, ys, xs[n - 1], ys[n - 1], n - 1);
      SumsExtend(xs, ys, n);
      CovStep((n - 1) as real, Dot(xs, ys, n - 1), Sum(xs, n - 1), Sum(ys, n - 1), xs[n - 1], ys[n - 1],
              n as real, Dot(xs, ys, n), Sum(xs, n), Sum(ys, n));
    }
  }

  lemma SquareNonNegative(x: real)
    ensures x * x >= 0.0
  {
  }

  /** The covariance term is the sum over all pairs of points, so the denominator is a sum of squares. */
  lemma CovIsPairSum(xs: seq<real>, ys: seq<real>)
    requires |xs| == |ys|
    ensures Cov(xs, ys) == PairSum(xs, ys, |xs|)
  {
    PairSumIs(xs, ys, |xs|);
  }

  lemma {:induction false} SpreadSquares(xs: seq<real>, x: real, i: nat, n: nat)
    requires n <= |xs|
    ensures Spread(xs, xs, x, x, n) >= 0.0
    ensures i < n ==> Spread(xs, xs, x, x, n) >= Gap(xs[i], xs[i], x, x)
  {
    if n > 0 {
      SpreadSquares(xs, x, i, n - 1);
      SquareNonNegative(xs[n - 1] - x);
    }
  }

  lemma {:induction false} PairSquares(xs: seq<real>, i: nat, j: nat, n: nat)
    requires n <= |xs|
    ensures PairSum(xs, xs, n) >= 0.0
    ensures i < j < n ==> PairSum(xs, xs, n) >= Gap(xs[i], xs[i], xs[j], xs[j])
  {
    if n > 0 {
      PairSquares(xs, i, j, n - 1);
      SpreadSquares(xs, xs[n - 1], i, n - 1);
    }
  }

  /** The denominator is never negative, and at least the square of any gap between two x values. */
  lemma DenomNonNegative(xs: seq<real>, i: nat, j: nat)
    ensures Denom(xs) >= 0.0
    ensures i < j < |xs| ==> Denom(xs) >= Gap(xs[i], xs[i], xs[j], xs[j])
  {
    CovIsPairSum(xs, xs);
    PairSquares(xs, i, j, |xs|);
  }

  // ---- optimality

  /** Sum of the residuals, and of the residuals weighted by x. */
  ghost function Resid(xs: seq<real>, ys: seq<real>, a: real, b: real, n: nat): real
    requires n <= |xs| && n <= |ys|
  {
    Sum(ys, n) - a * Sum(xs, n) - n as real * b
  }

  ghost function ResidX(xs: seq<real>, ys: seq<real>, a: real, b: real, n: nat): real
    requires n <= |xs| && n <= |ys|
  {
    Dot(xs, ys, n) - a * Dot(xs, xs, n) - b * Sum(xs, n)
  }

  /** The squares added by moving the line: sum of (da * x + db)^2. */
  ghost function Move(xs: seq<real>, da: real, db: real, n: nat): real
    requires n <= |xs|
  {
    if n == 0 then 0.0 else Move(xs, da, db, n - 1) + Shift(xs[n - 1], da, db)
  }

  ghost function Shift(x: real, da: real, db: real): real { (da * x + db) * (da * x + db) }

  lemma SquareOfDifference(r: real, e: real)
    ensures (r - e) * (r - e) == r * r - 2.0 * (r * e) + e * e
  {
  }

  lemma ResidStep(x: real, y: real, a: real, b: real, da: real, db: real, r: real)
    requires r == y - (a * x + b)
    ensures r * (da * x + db) == da * (x * y - a * (x * x) - b * x) + db * (y - a * x - b)
  {
    assert r * (da * x + db) == da * (x * r) + db * r;
    assert x * r == x * y - a * (x * x) - b * x;
  }

  lemma {:induction false} SseMoved(xs: seq<real>, ys: seq<real>, a: real, b: real, da: real, db: real, n: nat)
    requires n <= |xs| && n <= |ys|
    ensures Sse(xs, ys, a + da, b + db, n)
            == Sse(xs, ys, a, b, n) - 2.0 * Tilt(da, db, ResidX(xs, ys, a, b, n), Resid(xs, ys, a, b, n))
               + Move(xs, da, db, n)
  {
    if n > 0 {
      hide Resid, ResidX, Tilt, PointX, Point, SquaredError, Shift;
      SseMoved(xs, ys, a, b, da, db, n - 1);
      ResidSnoc(xs, ys, a, b, n);
      MovedPoint(xs[n - 1], ys[n - 1], a, b, da, db);
      TiltAdds(da, db, ResidX(xs, ys, a, b, n - 1), Resid(xs, ys, a, b, n - 1),
               PointX(xs[n - 1], ys[n - 1], a, b), Point(xs[n - 1], ys[n - 1], a, b));
    }
  }

  ghost function Tilt(da: real, db: real, rx: real, r: real): real { da * rx + db * r }

  /** One point's share of `Resid` and of `ResidX`. */
  ghost function Point(x: real, y: real, a: real, b: real): real { y - a * x - b }

  ghost function PointX(x: real, y: real, a: real, b: real): real { x * y - a * (x * x) - b * x }

  lemma ResidSnoc(xs: seq<real>, ys: seq<real>, a: real, b: real, n: nat)
    requires 0 < n <= |xs| && n <= |ys|
    ensures ResidX(xs, ys, a, b, n) == ResidX(xs, ys, a, b, n - 1) + PointX(xs[n - 1], ys[n - 1], a, b)
    ensures Resid(xs, ys, a, b, n) == Resid(xs, ys, a, b, n - 1) + Point(xs[n - 1], ys[n - 1], a, b)
  {
    var x := xs[n - 1];
    Linear(a, Dot(xs, xs, n - 1), x * x);
    Linear(a, Sum(xs, n - 1), x);
    Linear(b, Sum(xs, n - 1), x);
    Linear(b, (n - 1) as real, 1.0);
  }

  lemma Linear(k: real, s: real, t: real)
    ensures k * (s + t) == k * s + k * t
  {
  }

  /** One point's squared error before and after the move. */
  lemma MovedPoint(x: real, y: real, a: real, b: real, da: real, db: real)
    ensures SquaredError(x, y, a + da, b + db)
            == SquaredError(x, y, a, b) - 2.0 * Tilt(da, db, PointX(x, y, a, b), Point(x, y, a, b)) + Shift(x, da, db)
  {
    var r, e := y - (a * x + b), da * x + db;
    assert y - ((a + da) * x + (b + db)) == r - e;
    SquareOfDifference(r, e);
    ResidStep(x, y, a, b, da, db, r);
  }

  lemma TiltAdds(da: real, db: real, rx: real, r: real, p: real, q: real)
    ensures Tilt(da, db, rx + p, r + q) == Tilt(da, db, rx, r) + Tilt(da, db, p, q)
  {
  }

  lemma {:induction false} MoveNonNegative(xs: seq<real>, da: real, db: real, n: nat)
    requires n <= |xs|
    ensures Move(xs, da, db, n) >= 0.0
  {
    if n > 0 {
      MoveNonNegative(xs, da, db, n - 1);
      SquareNonNegative(da * xs[n - 1] + db);
    }
  }

  lemma TiltZero(da: real, db: real)
    ensures Tilt(da, db, 0.0, 0.0) == 0.0
  {
  }

  /** A line that satisfies the normal equations is a least-squares line. */
  lemma NormalEquationsSuffice(xs: seq<real>, ys: seq<real>, a: real, b: real)
    requires |xs| == |ys|
    requires Resid(xs, ys, a, b, |xs|) == 0.0 && ResidX(xs, ys, a, b, |xs|) == 0.0
    ensures LeastSquares(xs, ys, a, b)
  {
    forall c: real, d: real ensures Sse(xs, ys, a, b, |xs|) <= Sse(xs, ys, c, d, |xs|) {
      hide *;
      SseMoved(xs, ys, a, b, c - a, d - b, |xs|);
      MoveNonNegative(xs, c - a, d - b, |xs|);
      TiltZero(c - a, d - b);
      assert a + (c - a) == c && b + (d - b) == d;
    }
  }

  lemma NormalEquationsHold(n: real, sx: real, sy: real, sxy: real, sxx: real, slope: real, intercept: real)
    requires n > 0.0 && slope * CovForm(n, sxx, sx, sx) == CovForm(n, sxy, sx, sy)
    requires n * intercept == sy - slope * sx
    ensures sxy - slope * sxx - intercept * sx == 0.0
  {
    var d := n * sxx - sx * sx;
    var e := sxy - slope * sxx - intercept * sx;
    assert n * e == n * sxy - slope * (n * sxx) - (n * intercept) * sx;
    assert (n * intercept) * sx == sy * sx - slope * (sx * sx);
    assert slope * d == slope * (n * sxx) - slope * (sx * sx);
    assert n * e == 0.0;
  }

  /** Goodness of fit of a line against the horizontal line through the mean. */
  ghost function RSquared(xs: seq<real>, ys: seq<real>, a: real, b: real): real
    requires |xs| == |ys| > 0
  {
    var total := Sse(xs, ys, 0.0, Mean(ys), |xs|);
    if total > EPSILON then 1.0 - Sse(xs, ys, a, b, |xs|) / total else 0.0
  }

  lemma {:induction false} SseNonNegative(xs: seq<real>, ys: seq<real>, a: real, b: real, n: nat)
    requires n <= |xs| && n <= |ys|
    ensures Sse(xs, ys, a, b, n) >= 0.0
  {
    if n > 0 {
      SseNonNegative(xs, ys, a, b, n - 1);
      SquareNonNegative(ys[n - 1] - (a * xs[n - 1] + b));
    }
  }

  /** Least squares against the mean line bounds the goodness of fit. */
  lemma RSquaredInUnit(xs: seq<real>, ys: seq<real>, a: real, b: real)
    requires |xs| == |ys| > 0 && LeastSquares(xs, ys, a, b)
    ensures 0.0 <= RSquared(xs, ys, a, b) <= 1.0
  {
    var total, rest := Sse(xs, ys, 0.0, Mean(ys), |xs|), Sse(xs, ys, a, b, |xs|);
    SseNonNegative(xs, ys, a, b, |xs|);
    if total > EPSILON {
      RatioInUnit(rest, total);
    }
  }

  lemma RatioInUnit(p: real, q: real)
    requires 0.0 <= p <= q && q > 0.0
    ensures 0.0 <= p / q <= 1.0
  {
    var t := p / q;
    assert t * q == p;
    assert t < 0.0 ==> t * q < 0.0;
    assert t > 1.0 ==> t * q > q;
  }

  /** What a successful regression returns. */
  ghost predicate IsFit(xs: seq<real>, ys: seq<real>, r: LinearRegressionResult)
    requires |xs| == |ys| > 0
  {
    && r.n == |xs|
    && (if Denom(xs) < EPSILON then
          r.slope == 0.0 && r.intercept == Mean(ys) && r.rSquared == 0.0
        else
          && LeastSquares(xs, ys, r.slope, r.intercept)
          && r.rSquared == RSquared(xs, ys, r.slope, r.intercept) && 0.0 <= r.rSquared <= 1.0)
  }

  method LinearRegression(xs: seq<real>, ys: seq<real>) returns (o: FitResult)
    ensures |xs| < 2 ==> o == TooFewPoints
    ensures |xs| >= 2 && |xs| != |ys| ==> o == LengthMismatch
    ensures |xs| >= 2 && |xs| == |ys| ==> o.Fit? && IsFit(xs, ys, o.result)
  {
    var n := |xs|;
    if n < 2 {
      return TooFewPoints;
    }
    if n != |ys| {
      return LengthMismatch;
    }
    hide *;
    var sumX, sumY, sumXY, sumX2 := Accumulate(xs, ys);
    var nf := n as real;
    var denom := nf * sumX2 - sumX * sumX;
    CovIs(xs, xs, sumX, sumX, sumX2, denom);
    DenomNonNegative(xs, 0, 0);
    if (if denom < 0.0 then -denom else denom) < EPSILON {
      o := Fit(LinearRegressionResult(0.0, sumY / nf, 0.0, n));
      FlatFit(xs, ys, o.result, sumY);
      return;
    }
    var result := FitLine(xs, ys, sumX, sumY, sumXY, denom);
    o := Fit(result);
  }

  method FitLine(xs: seq<real>, ys: seq<real>, sumX: real, sumY: real, sumXY: real, denom: real)
    returns (r: LinearRegressionResult)
    requires |xs| == |ys| > 0 && denom == Denom(xs) >= EPSILON
    requires sumX == Sum(xs, |xs|) && sumY == Sum(ys, |xs|) && sumXY == Dot(xs, ys, |xs|)
    ensures IsFit(xs, ys, r)
  {
    assert EPSILON > 0.0;
    hide *;
    var nf := |xs| as real;
    var slope, intercept := Solve(xs, ys, sumX, sumY, sumXY, denom);
    var meanY := sumY / nf;
    var ssTot, ssRes := SumSquares(xs, ys, slope, intercept, meanY);
    var rSquared := 0.0;
    if ssTot > EPSILON {
      rSquared := 1.0 - ssRes / ssTot;
    }
    r := LinearRegressionResult(slope, intercept, rSquared, |xs|);
    FitAssembled(xs, ys, r, ssTot, ssRes);
  }

  method Solve(xs: seq<real>, ys: seq<real>, sumX: real, sumY: real, sumXY: real, denom: real)
    returns (slope: real, intercept: real)
    requires |xs| == |ys| > 0 && denom == Denom(xs) && denom != 0.0
    requires sumX == Sum(xs, |xs|) && sumY == Sum(ys, |xs|) && sumXY == Dot(xs, ys, |xs|)
    ensures LeastSquares(xs, ys, slope, intercept)
  {
    hide *;
    var nf := |xs| as real;
    var top := nf * sumXY - sumX * sumY;
    slope := top / denom;
    CovIs(xs, ys, sumX, sumY, sumXY, top);
    QuotientTimes(top, denom);
    var rest := sumY - slope * sumX;
    intercept := rest / nf;
    QuotientTimes(rest, nf);
    FittedIsBest(xs, ys, slope, intercept);
  }

  lemma CovIs(xs: seq<real>, ys: seq<real>, sx: real, sy: real, sxy: real, cov: real)
    requires |xs| == |ys| && sx == Sum(xs, |xs|) && sy == Sum(ys, |xs|) && sxy == Dot(xs, ys, |xs|)
    requires cov == |xs| as real * sxy - sx * sy
    ensures Cov(xs, ys) == cov
    ensures xs == ys ==> Denom(xs) == cov
  {
    hide Dot, Sum;
  }

  lemma FlatFit(xs: seq<real>, ys: seq<real>, r: LinearRegressionResult, sy: real)
    requires |xs| == |ys| > 0 && Denom(xs) < EPSILON && sy == Sum(ys, |xs|)
    requires r == LinearRegressionResult(0.0, sy / |xs| as real, 0.0, |xs|)
    ensures IsFit(xs, ys, r)
  {
  }

  lemma FitAssembled(xs: seq<real>, ys: seq<real>, r: LinearRegressionResult, ssTot: real, ssRes: real)
    requires |xs| == |ys| > 0 && Denom(xs) >= EPSILON && r.n == |xs|
    requires LeastSquares(xs, ys, r.slope, r.intercept)
    requires ssTot == Sse(xs, ys, 0.0, Sum(ys, |xs|) / |xs| as real, |xs|)
    requires ssRes == Sse(xs, ys, r.slope, r.intercept, |xs|)
    requires r.rSquared == if ssTot > EPSILON then 1.0 - ssRes / ssTot else 0.0
    ensures IsFit(xs, ys, r)
  {
    RSquaredInUnit(xs, ys, r.slope, r.intercept);
  }

  method Accumulate(xs: seq<real>, ys: seq<real>) returns (sumX: real, sumY: real, sumXY: real, sumX2: real)
    requires |xs| == |ys|
    ensures sumX == Sum(xs, |xs|) && sumY == Sum(ys, |xs|)
    ensures sumXY == Dot(xs, ys, |xs|) && sumX2 == Dot(xs, xs, |xs|)
  {
    sumX, sumY, sumXY, sumX2 := 0.0, 0.0, 0.0, 0.0;
    for i := 0 to |xs|
      invariant sumX == Sum(xs, i) && sumY == Sum(ys, i)
      invariant sumXY == Dot(xs, ys, i) && sumX2 == Dot(xs, xs, i)
    {
      sumX := sumX + xs[i];
      sumY := sumY + ys[i];
      sumXY := sumXY + xs[i] * ys[i];
      sumX2 := sumX2 + xs[i] * xs[i];
    }
  }

  method SumSquares(xs: seq<real>, ys: seq<real>, slope: real, intercept: real, meanY: real)
    returns (ssTot: real, ssRes: real)
    requires |xs| == |ys|
    ensures ssTot == Sse(xs, ys, 0.0, meanY, |xs|) && ssRes == Sse(xs, ys, slope, intercept, |xs|)
  {
    hide SquaredError;
    ssTot, ssRes := 0.0, 0.0;
    for i := 0 to |xs|
      invariant ssTot == Sse(xs, ys, 0.0, meanY, i) && ssRes == Sse(xs, ys, slope, intercept, i)
    {
      var predicted := slope * xs[i] + intercept;
      var res, tot := (ys[i] - predicted) * (ys[i] - predicted), (ys[i] - meanY) * (ys[i] - meanY);
      SquaredErrorIs(xs[i], ys[i], slope, intercept, predicted, res);
      SquaredErrorIs(xs[i], ys[i], 0.0, meanY, meanY, tot);
      ssRes := ssRes + res;
      ssTot := ssTot + tot;
    }
  }

  lemma SquaredErrorIs(x: real, y: real, a: real, b: real, p: real, s: real)
    requires p == a * x + b && s == (y - p) * (y - p)
    ensures SquaredError(x, y, a, b) == s
  {
  }

  /** The closed-form slope and intercept are the least-squares line. */
  lemma FittedIsBest(xs: seq<real>, ys: seq<real>, slope: real, intercept: real)
    requires |xs| == |ys| > 0
    requires slope * Denom(xs) == Cov(xs, ys)
    requires |xs| as real * intercept == Sum(ys, |xs|) - slope * Sum(xs, |xs|)
    ensures Resid(xs, ys, slope, intercept, |xs|) == 0.0 && ResidX(xs, ys, slope, intercept, |xs|) == 0.0
    ensures LeastSquares(xs, ys, slope, intercept)
  {
    hide Dot, Sum, Sse, CovForm, LeastSquares;
    var n := |xs|;
    NormalEquationsHold(n as real, Sum(xs, n), Sum(ys, n), Dot(xs, ys, n), Dot(xs, xs, n), slope, intercept);
    NormalEquationsSuffice(xs, ys, slope, intercept);
  }

  // ---- the least-squares line is unique when the x values spread

  ghost function MoveForm(n: real, sxx: real, sx: real, da: real, db: real): real {
    da * da * sxx + 2.0 * (da * db) * sx + n * (db * db)
  }

  lemma MoveStep(n: real, sxx: real, sx: real, da: real, db: real, x: real, n': real, sxx': real, sx': real)
    requires Extends(n, sxx, sx, sx, x, x, n', sxx', sx', sx')
    ensures MoveForm(n', sxx', sx', da, db) == MoveForm(n, sxx, sx, da, db) + Shift(x, da, db)
  {
    Linear(da * da, sxx, x * x);
    Linear(2.0 * (da * db), sx, x);
    assert n' * (db * db) == n * (db * db) + db * db;
    assert (da * x + db) * (da * x + db) == da * da * (x * x) + 2.0 * (da * db) * x + db * db;
  }

  lemma {:induction false} MoveExpands(xs: seq<real>, da: real, db: real, n: nat)
    requires n <= |xs|
    ensures Move(xs, da, db, n) == MoveForm(n as real, Dot(xs, xs, n), Sum(xs, n), da, db)
  {
    if n > 0 {
      hide MoveForm, Shift, Dot, Sum, Extends;
      MoveExpands(xs, da, db, n - 1);
      SumsExtend(xs, xs, n);
      MoveStep((n - 1) as real, Dot(xs, xs, n - 1), Sum(xs, n - 1), da, db, xs[n - 1],
               n as real, Dot(xs, xs, n), Sum(xs, n));
    }
  }

  /** n * Move is a square plus the denominator times the square of the change in slope. */
  lemma MoveBound(n: real, sxx: real, sx: real, da: real, db: real)
    ensures n * MoveForm(n, sxx, sx, da, db)
            == (da * sx + n * db) * (da * sx + n * db) + da * da * (n * sxx - sx * sx)
  {
    var q := da * sx + n * db;
    assert q * q == da * da * (sx * sx) + 2.0 * (da * sx) * (n * db) + (n * db) * (n * db);
    assert n * (2.0 * (da * db) * sx) == 2.0 * (da * sx) * (n * db);
    assert n * (n * (db * db)) == (n * db) * (n * db);
    assert n * (da * da * sxx) == da * da * (n * sxx);
    Linear(da * da, n * sxx, - (sx * sx));
    Linear(n, da * da * sxx, 2.0 * (da * db) * sx);
    Linear(n, da * da * sxx + 2.0 * (da * db) * sx, n * (db * db));
  }

  /** Any least-squares line has the closed-form slope. */
  lemma LeastSquaresSlope(xs: seq<real>, ys: seq<real>, a: real, b: real)
    requires |xs| == |ys| > 0 && Denom(xs) > 0.0 && LeastSquares(xs, ys, a, b)
    ensures a * Denom(xs) == Cov(xs, ys)
  {
    hide Dot, Sum, Sse, CovForm, MoveForm, LeastSquares, Resid, ResidX, Cov, Denom, Move;
    var n, cov, denom := |xs|, Cov(xs, ys), Denom(xs);
    var a0 := cov / denom;
    var top := Sum(ys, n) - a0 * Sum(xs, n);
    var b0 := top / n as real;
    QuotientTimes(cov, denom);
    QuotientTimes(top, n as real);
    FittedIsBest(xs, ys, a0, b0);
    var da, db := a - a0, b - b0;
    SseMoved(xs, ys, a0, b0, da, db, n);
    TiltZero(da, db);
    SseAtMost(xs, ys, a, b, a0, b0);
    assert a0 + da == a && b0 + db == b;
    MoveExpands(xs, da, db, n);
    DenomForm(xs);
    MoveZero(n as real, Dot(xs, xs, n), Sum(xs, n), da, db);
  }

  lemma DenomForm(xs: seq<real>)
    ensures Denom(xs) == CovForm(|xs| as real, Dot(xs, xs, |xs|), Sum(xs, |xs|), Sum(xs, |xs|))
  {
  }

  lemma SseAtMost(xs: seq<real>, ys: seq<real>, a: real, b: real, c: real, d: real)
    requires |xs| == |ys| && LeastSquares(xs, ys, a, b)
    ensures Sse(xs, ys, a, b, |xs|) <= Sse(xs, ys, c, d, |xs|)
  {
  }

  lemma MoveZero(n: real, sxx: real, sx: real, da: real, db: real)
    requires n > 0.0 && CovForm(n, sxx, sx, sx) > 0.0 && MoveForm(n, sxx, sx, da, db) <= 0.0
    ensures da == 0.0
  {
    var q := da * sx + n * db;
    MoveBound(n, sxx, sx, da, db);
    SlopeMustVanish(n, MoveForm(n, sxx, sx, da, db), q, da, CovForm(n, sxx, sx, sx));
  }

  // Products are passed as separate variables: the solver rewrites `a * a > 0` to `a != 0`.

  lemma SlopeMustVanish(n: real, m: real, q: real, a: real, d: real)
    requires n > 0.0 && m <= 0.0 && d > 0.0 && n * m == q * q + a * a * d
    ensures a == 0.0
  {
    var lhs, square, rest := n * m, q * q, a * a * d;
    if a != 0.0 {
      var s := a * a;
      SquarePositive(a, s);
      PositiveProduct(s, d, rest);
    }
    assert square >= 0.0;
    assert lhs <= 0.0;
  }

  // ---- the degenerate branch, exact data and monotone data

  lemma {:induction false} SameXsSpread(xs: seq<real>, ys: seq<real>, x: real, y: real, n: nat)
    requires n <= |xs| && n <= |ys| && forall i :: 0 <= i < n ==> xs[i] == x
    ensures Spread(xs, ys, x, y, n) == 0.0
  {
    if n > 0 { SameXsSpread(xs, ys, x, y, n - 1); }
  }

  lemma {:induction false} SameXsPairSum(xs: seq<real>, ys: seq<real>, n: nat)
    requires n <= |xs| && n <= |ys| && forall i, j :: 0 <= i < j < n ==> xs[i] == xs[j]
    ensures PairSum(xs, ys, n) == 0.0
  {
    if n > 0 {
      SameXsPairSum(xs, ys, n - 1);
      SameXsSpread(xs, ys, xs[n - 1], ys[n - 1], n - 1);
    }
  }

  lemma ZeroDenom(xs: seq<real>, ys: seq<real>)
    requires |xs| == |ys| && Denom(xs) == 0.0
    ensures forall i, j :: 0 <= i < j < |xs| ==> xs[i] == xs[j]
    ensures Cov(xs, ys) == 0.0
  {
    forall i, j | 0 <= i < j < |xs| ensures xs[i] == xs[j] {
      DenomNonNegative(xs, i, j);
      var gap := xs[i] - xs[j];
      var square := gap * gap;
      if gap != 0.0 { SquarePositive(gap, square); }
    }
    CovIsPairSum(xs, ys);
    SameXsPairSum(xs, ys, |xs|);
  }

  /** The flat line of the degenerate branch is a least-squares line exactly when the covariance
      vanishes; that holds when all x are equal, but not whenever the branch is taken. */
  lemma FlatOptimalIff(xs: seq<real>, ys: seq<real>)
    requires |xs| == |ys| > 0
    ensures LeastSquares(xs, ys, 0.0, Mean(ys)) <==> Cov(xs, ys) == 0.0
    ensures Denom(xs) == 0.0 ==> Cov(xs, ys) == 0.0
  {
    hide *;
    DenomNonNegative(xs, 0, 0);
    if Denom(xs) == 0.0 {
      ZeroDenom(xs, ys);
    } else if LeastSquares(xs, ys, 0.0, Mean(ys)) {
      LeastSquaresSlope(xs, ys, 0.0, Mean(ys));
      ZeroFactor(Denom(xs));
    }
    if Cov(xs, ys) == 0.0 {
      MeanTimes(ys);
      ZeroFactor(Denom(xs));
      ZeroFactor(Sum(xs, |xs|));
      FittedIsBest(xs, ys, 0.0, Mean(ys));
    }
  }

  /** Of the result: the returned line is a best one exactly outside the flat branch, or there when the data
      are uncorrelated. */
  lemma FitOptimalIff(xs: seq<real>, ys: seq<real>, r: LinearRegressionResult)
    requires |xs| == |ys| > 0 && IsFit(xs, ys, r)
    ensures LeastSquares(xs, ys, r.slope, r.intercept) <==> Denom(xs) >= EPSILON || Cov(xs, ys) == 0.0
  {
    hide LeastSquares, Denom, Cov, Mean, RSquared;
    FlatOptimalIff(xs, ys);
  }

  lemma MeanTimes(ys: seq<real>)
    requires |ys| > 0
    ensures |ys| as real * Mean(ys) == Sum(ys, |ys|)
  {
    QuotientTimes(Sum(ys, |ys|), |ys| as real);
  }

  /** Two x values 1e-8 apart count as "all the same", and the flat line is not the best one. */
  lemma DegenerateNotOptimal()
    ensures Denom([0.0, 0.00000001]) < EPSILON
    ensures !LeastSquares([0.0, 0.00000001], [0.0, 1.0], 0.0, Mean([0.0, 1.0]))
  {
    var xs, ys := [0.0, 0.00000001], [0.0, 1.0];
    assert Sum(xs, 1) == 0.0 && Sum(ys, 1) == 0.0 && Dot(xs, xs, 1) == 0.0 && Dot(xs, ys, 1) == 0.0;
    assert Sum(xs, 2) == 0.00000001 && Sum(ys, 2) == 1.0;
    assert Dot(xs, xs, 2) == 0.0000000000000001 && Dot(xs, ys, 2) == 0.00000001;
    FlatOptimalIff(xs, ys);
  }

  /** The point (u, v) lies on the line. */
  ghost predicate On(u: real, v: real, a: real, b: real) { v == a * u + b }

  lemma {:induction false} LinearSpread(xs: seq<real>, ys: seq<real>, a: real, b: real, x: real, y: real, n: nat)
    requires n <= |xs| && n <= |ys| && (forall i :: 0 <= i < n ==> On(xs[i], ys[i], a, b)) && On(x, y, a, b)
    ensures Spread(xs, ys, x, y, n) == a * Spread(xs, xs, x, x, n)
  {
    hide Gap, On;
    if n == 0 {
      ZeroFactor(a);
    } else {
      LinearSpread(xs, ys, a, b, x, y, n - 1);
      LinearGap(xs[n - 1], ys[n - 1], x, y, a, b);
      var s, g := Spread(xs, xs, x, x, n - 1), Gap(xs[n - 1], xs[n - 1], x, x);
      ScaledSum(a, s, g, a * s, a * g);
    }
  }

  lemma ScaledSum(a: real, s: real, g: real, as_: real, ag: real)
    requires as_ == a * s && ag == a * g
    ensures as_ + ag == a * (s + g)
  {
  }

  lemma LinearGap(u: real, v: real, x: real, y: real, a: real, b: real)
    requires On(u, v, a, b) && On(x, y, a, b)
    ensures Gap(u, v, x, y) == a * Gap(u, u, x, x)
  {
    var d := u - x;
    assert v - y == a * d;
    assert d * (a * d) == a * (d * d);
  }

  lemma PairSnoc(xs: seq<real>, ys: seq<real>, n: nat)
    requires 0 < n <= |xs| && n <= |ys|
    ensures PairSum(xs, ys, n) == PairSum(xs, ys, n - 1) + Spread(xs, ys, xs[n - 1], ys[n - 1], n - 1)
  {
  }

  lemma {:induction false} LinearPairSum(xs: seq<real>, ys: seq<real>, a: real, b: real, n: nat)
    requires n <= |xs| && n <= |ys| && forall i :: 0 <= i < n ==> On(xs[i], ys[i], a, b)
    ensures PairSum(xs, ys, n) == a * PairSum(xs, xs, n)
  {
    hide On, Spread;
    if n == 0 {
      ZeroFactor(a);
    } else {
      LinearPairSum(xs, ys, a, b, n - 1);
      LinearSpread(xs, ys, a, b, xs[n - 1], ys[n - 1], n - 1);
      var s, g := PairSum(xs, xs, n - 1), Spread(xs, xs, xs[n - 1], xs[n - 1], n - 1);
      hide PairSum;
      PairSnoc(xs, ys, n);
      PairSnoc(xs, xs, n);
      ScaledSum(a, s, g, a * s, a * g);
    }
  }

  /** Points on a line have that line's slope. */
  lemma LinearData(xs: seq<real>, ys: seq<real>, a: real, b: real)
    requires |xs| == |ys| && forall i :: 0 <= i < |xs| ==> On(xs[i], ys[i], a, b)
    ensures Cov(xs, ys) == a * Denom(xs)
  {
    hide *;
    CovIsPairSum(xs, ys);
    CovIsPairSum(xs, xs);
    LinearPairSum(xs, ys, a, b, |xs|);
    DenomIsCov(xs);
  }

  lemma DenomIsCov(xs: seq<real>)
    ensures Denom(xs) == Cov(xs, xs)
  {
  }

  ghost predicate Increasing(xs: seq<real>) {
    forall i, j :: 0 <= i < j < |xs| ==> xs[i] < xs[j]
  }

  ghost predicate NonDecreasing(ys: seq<real>) {
    forall i, j :: 0 <= i < j < |ys| ==> ys[i] <= ys[j]
  }

  lemma GapSign(u: real, v: real, x: real, y: real, g: real)
    requires u < x && v <= y && g == Gap(u, v, x, y)
    ensures g >= 0.0 && (v < y ==> g > 0.0)
  {
    assert g == (x - u) * (y - v);
    if v < y { PositiveProduct(x - u, y - v, g); }
  }

  lemma {:induction false} SpreadSign(xs: seq<real>, ys: seq<real>, x: real, y: real, n: nat)
    requires n <= |xs| && n <= |ys| && forall i :: 0 <= i < n ==> xs[i] < x && ys[i] <= y
    ensures Spread(xs, ys, x, y, n) >= 0.0
    ensures n > 0 && ys[0] < y ==> Spread(xs, ys, x, y, n) > 0.0
  {
    if n > 0 {
      hide Gap;
      SpreadSign(xs, ys, x, y, n - 1);
      GapSign(xs[n - 1], ys[n - 1], x, y, Gap(xs[n - 1], ys[n - 1], x, y));
    }
  }

  lemma {:induction false} PairSumSign(xs: seq<real>, ys: seq<real>, n: nat)
    requires n <= |xs| && n <= |ys| && Increasing(xs) && NonDecreasing(ys)
    ensures PairSum(xs, ys, n) >= 0.0
    ensures n > 1 && ys[0] < ys[n - 1] ==> PairSum(xs, ys, n) > 0.0
  {
    if n > 0 {
      PairSumSign(xs, ys, n - 1);
      SpreadSign(xs, ys, xs[n - 1], ys[n - 1], n - 1);
    }
  }

  /** Chebyshev's sum argument: growing data has a positive slope. */
  lemma MonotoneData(xs: seq<real>, ys: seq<real>)
    requires |xs| == |ys| > 1 && Increasing(xs) && NonDecreasing(ys) && ys[0] < ys[|ys| - 1]
    ensures Cov(xs, ys) > 0.0
  {
    CovIsPairSum(xs, ys);
    PairSumSign(xs, ys, |xs|);
  }

  lemma {:induction false} SseZeroIff(xs: seq<real>, ys: seq<real>, a: real, b: real, n: nat)
    requires n <= |xs| && n <= |ys|
    ensures Sse(xs, ys, a, b, n) == 0.0 <==> forall i :: 0 <= i < n ==> On(xs[i], ys[i], a, b)
  {
    if n > 0 {
      SseZeroIff(xs, ys, a, b, n - 1);
      SseNonNegative(xs, ys, a, b, n - 1);
      hide Sse, SquaredError, On;
      SseSnoc(xs, ys, a, b, n);
      ErrorSign(xs[n - 1], ys[n - 1], a, b);
    }
  }

  lemma SseSnoc(xs: seq<real>, ys: seq<real>, a: real, b: real, n: nat)
    requires 0 < n <= |xs| && n <= |ys|
    ensures Sse(xs, ys, a, b, n) == Sse(xs, ys, a, b, n - 1) + SquaredError(xs[n - 1], ys[n - 1], a, b)
  {
    hide SquaredError;
  }

  lemma ErrorSign(x: real, y: real, a: real, b: real)
    ensures SquaredError(x, y, a, b) >= 0.0 && (SquaredError(x, y, a, b) == 0.0 <==> On(x, y, a, b))
  {
    var p := a * x + b;
    var d := y - p;
    SquaredErrorIs(x, y, a, b, p, d * d);
    assert On(x, y, a, b) <==> d == 0.0;
    hide SquaredError, On;
    if d != 0.0 { SquarePositive(d, d * d); }
  }

  /** What RSquared measures: the part of the squared distances from the mean that the line explains; it is 1
      exactly when every point lies on the line. */
  lemma RSquaredMeans(xs: seq<real>, ys: seq<real>, a: real, b: real)
    requires |xs| == |ys| > 0
    ensures var total, rest := Sse(xs, ys, 0.0, Mean(ys), |xs|), Sse(xs, ys, a, b, |xs|);
            if total > 0.000000000000001 then
              && RSquared(xs, ys, a, b) * total == total - rest
              && (RSquared(xs, ys, a, b) == 1.0 <==> forall i :: 0 <= i < |xs| ==> On(xs[i], ys[i], a, b))
            else RSquared(xs, ys, a, b) == 0.0
  {
    var total, rest := Sse(xs, ys, 0.0, Mean(ys), |xs|), Sse(xs, ys, a, b, |xs|);
    SseZeroIff(xs, ys, a, b, |xs|);
    if total > EPSILON {
      assert RSquared(xs, ys, a, b) == 1.0 - rest / total;
      hide Sse, RSquared, On;
      ShareMeans(rest, total, 1.0 - rest / total);
    }
  }

  lemma ShareMeans(rest: real, total: real, r: real)
    requires total > 0.0 && r == 1.0 - rest / total
    ensures r * total == total - rest && (r == 1.0 <==> rest == 0.0)
  {
    QuotientTimes(rest, total);
    var q := rest / total;
    assert q * total == rest;
    assert r * total == total - q * total;
  }
}
