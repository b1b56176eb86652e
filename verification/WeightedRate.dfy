/** `WeightedMovingAverage` (internal/ml/wma.go). Timestamps are in nanoseconds; `math.Sqrt` is a
    parameter, and `math.Pow` with a whole exponent is defined by recursion. */
module WeightedRate {
  import opened RealFacts

  datatype WMAConfig = WMAConfig(windowSize: int, decayFactor: real)

  datatype WMAResult = WMAResult(weightedRate: real, sampleCount: nat, stdDev: real)

  datatype RateResult = TooFewPoints | LengthMismatch | Rate(result: WMAResult)

  const NANOS: real := 1000000000.0

  function Pow(b: real, e: nat): real { if e == 0 then 1.0 else b * Pow(b, e - 1) }

  function Decay(cfg: WMAConfig): real {
    if cfg.decayFactor <= 0.0 || cfg.decayFactor >= 1.0 then 0.85 else cfg.decayFactor
  }

  /** The first interval used: the window may cut off the older ones. */
  function FirstInterval(cfg: WMAConfig, n: nat): (lo: nat)
    ensures lo >= 1
  {
    var start := if cfg.windowSize > 0 && n > cfg.windowSize then n - cfg.windowSize else 0;
    if start > 1 then start else 1
  }

  function ElapsedSec(ts: seq<int>, i: nat): real
    requires 1 <= i < |ts|
  {
    (ts[i] - ts[i - 1]) as real / NANOS
  }

  /** The interval rates from `lo` up to `n`, leaving out intervals in which no time passes. */
  ghost function Rates(ts: seq<int>, vs: seq<real>, lo: nat, n: nat): seq<real>
    requires 1 <= lo && n <= |ts| == |vs|
  {
    if n <= lo then []
    else if ElapsedSec(ts, n - 1) <= 0.0 then Rates(ts, vs, lo, n - 1)
    else Rates(ts, vs, lo, n - 1) + [(vs[n - 1] - vs[n - 2]) / ElapsedSec(ts, n - 1)]
  }

  ghost function Weight(decay: real, m: nat, i: nat): real
    requires i < m
  {
    Pow(decay, m - i - 1)
  }

  /** Sum of the first `k` of `m` weights, and of the weighted values. */
  ghost function WeightSum(decay: real, m: nat, k: nat): real
    requires k <= m
  {
    if k == 0 then 0.0 else WeightSum(decay, m, k - 1) + Weight(decay, m, k - 1)
  }

  ghost function Weighted(decay: real, rates: seq<real>, k: nat): real
    requires k <= |rates|
  {
    if k == 0 then 0.0 else Weighted(decay, rates, k - 1) + Weight(decay, |rates|, k - 1) * rates[k - 1]
  }

  ghost function WeightedSquares(decay: real, rates: seq<real>, mean: real, k: nat): real
    requires k <= |rates|
  {
    if k == 0 then 0.0 else
      WeightedSquares(decay, rates, mean, k - 1) + SquareTerm(Weight(decay, |rates|, k - 1), rates[k - 1] - mean)
  }

  function SquareTerm(w: real, d: real): real { w * d * d }

  lemma {:induction false} PowPositive(b: real, e: nat, p: real)
    requires b > 0.0 && p == Pow(b, e)
    ensures p > 0.0
  {
    if e > 0 {
      PowPositive(b, e - 1, Pow(b, e - 1));
      PositiveProduct(b, Pow(b, e - 1), p);
    }
  }

  lemma {:induction false} WeightSumPositive(decay: real, m: nat, k: nat)
    requires decay > 0.0 && k <= m
    ensures WeightSum(decay, m, k) >= 0.0 && (k > 0 ==> WeightSum(decay, m, k) > 0.0)
  {
    if k > 0 {
      WeightSumPositive(decay, m, k - 1);
      PowPositive(decay, m - k, Weight(decay, m, k - 1));
    }
  }

  // ---- the weights by recency

  /** The weighted sum as a recurrence: every newer value multiplies the older ones by the decay. */
  ghost function Recency(decay: real, rates: seq<real>): real {
    if rates == [] then 0.0 else decay * Recency(decay, rates[..|rates| - 1]) + rates[|rates| - 1]
  }

  lemma {:induction false} WeightedAppend(decay: real, rates: seq<real>, x: real, k: nat)
    requires k <= |rates|
    ensures Weighted(decay, rates + [x], k) == decay * Weighted(decay, rates, k)
  {
    if k > 0 {
      WeightedAppend(decay, rates, x, k - 1);
      var w := Weight(decay, |rates|, k - 1);
      assert Weight(decay, |rates| + 1, k - 1) == decay * w;
      assert (rates + [x])[k - 1] == rates[k - 1];
      Scale(decay, Weighted(decay, rates, k - 1), w, rates[k - 1]);
    }
  }

  lemma Scale(d: real, s: real, w: real, r: real)
    ensures d * s + (d * w) * r == d * (s + w * r)
  {
  }

  /** The newest value has weight 1 and each step back multiplies the weight by the decay. */
  lemma {:induction false} WeightedIsRecency(decay: real, rates: seq<real>)
    ensures Weighted(decay, rates, |rates|) == Recency(decay, rates)
  {
    if rates != [] {
      var init, x := rates[..|rates| - 1], rates[|rates| - 1];
      assert rates == init + [x];
      WeightedIsRecency(decay, init);
      WeightedAppend(decay, init, x, |init|);
      assert Weight(decay, |rates|, |rates| - 1) == 1.0;
    }
  }

  // ---- the average is a convex combination

  ghost predicate Between(lo: real, hi: real, s: real, t: real) { lo * s <= t <= hi * s }

  lemma {:induction false} WeightedBounds(decay: real, rates: seq<real>, lo: real, hi: real, k: nat)
    requires decay > 0.0 && k <= |rates| && forall i :: 0 <= i < |rates| ==> lo <= rates[i] <= hi
    ensures Between(lo, hi, WeightSum(decay, |rates|, k), Weighted(decay, rates, k))
  {
    if k > 0 {
      hide *;
      WeightPositive(decay, |rates|, k - 1);
      SumsSnoc(decay, rates, k);
      WeightedBounds(decay, rates, lo, hi, k - 1);
      BoundStep(lo, hi, WeightSum(decay, |rates|, k - 1), Weighted(decay, rates, k - 1),
                Weight(decay, |rates|, k - 1), rates[k - 1],
                WeightSum(decay, |rates|, k), Weighted(decay, rates, k));
    }
  }

  lemma SumsSnoc(decay: real, rates: seq<real>, k: nat)
    requires 0 < k <= |rates|
    ensures WeightSum(decay, |rates|, k) == WeightSum(decay, |rates|, k - 1) + Weight(decay, |rates|, k - 1)
    ensures Weighted(decay, rates, k)
            == Weighted(decay, rates, k - 1) + Times(Weight(decay, |rates|, k - 1), rates[k - 1])
  {
  }

  ghost function Times(w: real, r: real): real { w * r }

  lemma WeightPositive(decay: real, m: nat, i: nat)
    requires decay > 0.0 && i < m
    ensures Weight(decay, m, i) > 0.0
  {
    PowPositive(decay, m - i - 1, Weight(decay, m, i));
  }

  lemma BoundStep(lo: real, hi: real, s: real, t: real, w: real, r: real, s': real, t': real)
    requires w > 0.0 && lo <= r <= hi && Between(lo, hi, s, t)
    requires s' == s + w && t' == t + Times(w, r)
    ensures Between(lo, hi, s', t')
  {
    assert w * (r - lo) >= 0.0 && w * (hi - r) >= 0.0;
    assert lo * s' == lo * s + lo * w && hi * s' == hi * s + hi * w;
  }

  /** The weighted squares are never negative, and vanish only when every rate is the mean. */
  lemma {:induction false} WeightedSquaresSign(decay: real, rates: seq<real>, mean: real, k: nat)
    requires decay > 0.0 && k <= |rates|
    ensures WeightedSquares(decay, rates, mean, k) >= 0.0
    ensures WeightedSquares(decay, rates, mean, k) == 0.0 <==> forall i :: 0 <= i < k ==> rates[i] == mean
  {
    if k > 0 {
      WeightPositive(decay, |rates|, k - 1);
      hide Weight, SquareTerm;
      WeightedSquaresSign(decay, rates, mean, k - 1);
      SquareTermSign(Weight(decay, |rates|, k - 1), rates[k - 1] - mean);
    }
  }

  lemma SquareTermSign(w: real, d: real)
    requires w > 0.0
    ensures SquareTerm(w, d) >= 0.0 && (SquareTerm(w, d) == 0.0 <==> d == 0.0)
  {
    var sq := d * d;
    assert w * d * d == w * sq;
    if d != 0.0 {
      SquarePositive(d, sq);
      hide SquareTerm;
      PositiveProduct(w, sq, w * sq);
    }
  }

  /** What a successful call returns for the rates it used. */
  ghost predicate IsAverage(decay: real, rates: seq<real>, sqrt: real -> real, r: WMAResult) {
    if rates == [] then r.weightedRate == 0.0 && r.stdDev == 0.0
    else
      var total := WeightSum(decay, |rates|, |rates|);
      && total > 0.0
      && r.weightedRate * total == Weighted(decay, rates, |rates|)
      && WeightedSquares(decay, rates, r.weightedRate, |rates|) / total >= 0.0  // what the root is taken of
      && r.stdDev == sqrt(WeightedSquares(decay, rates, r.weightedRate, |rates|) / total)
  }

  ghost predicate IsWma(cfg: WMAConfig, ts: seq<int>, vs: seq<real>, sqrt: real -> real, r: WMAResult)
    requires |ts| == |vs|
  {
    && r.sampleCount == |ts|
    && IsAverage(Decay(cfg), Rates(ts, vs, FirstInterval(cfg, |ts|), |ts|), sqrt, r)
  }

  /** The weighted rate lies between any bounds on the rates used. */
  lemma AverageWithin(decay: real, rates: seq<real>, sqrt: real -> real, r: WMAResult, lo: real, hi: real)
    requires decay > 0.0 && rates != [] && IsAverage(decay, rates, sqrt, r)
    requires forall i :: 0 <= i < |rates| ==> lo <= rates[i] <= hi
    ensures lo <= r.weightedRate <= hi
  {
    WeightedBounds(decay, rates, lo, hi, |rates|);
    var total := WeightSum(decay, |rates|, |rates|);
    hide *;
    Cancel(lo, r.weightedRate, total);
    Cancel(r.weightedRate, hi, total);
  }

  lemma Cancel(a: real, b: real, c: real)
    requires c > 0.0
    ensures a * c <= b * c ==> a <= b
  {
    assert a > b ==> (a - b) * c > 0.0;
  }

  method CollectRates(cfg: WMAConfig, ts: seq<int>, vs: seq<real>) returns (rates: seq<real>)
    requires |ts| == |vs|
    ensures rates == Rates(ts, vs, FirstInterval(cfg, |ts|), |ts|)
  {
    var n := |ts|;
    var start := 0;
    if cfg.windowSize > 0 && n > cfg.windowSize {
      start := n - cfg.windowSize;
    }
    rates := [];
    var i := if start > 1 then start else 1;
    ghost var lo := i;
    while i < n
      invariant lo == FirstInterval(cfg, n) <= i && (i <= n || i == lo)
      invariant rates == Rates(ts, vs, lo, if i <= n then i else n)
    {
      var dt := ElapsedSec(ts, i);
      if dt > 0.0 {
        rates := rates + [(vs[i] - vs[i - 1]) / dt];
      }
      i := i + 1;
    }
  }

  method Average(decay: real, rates: seq<real>, sqrt: real -> real, sampleCount: nat) returns (r: WMAResult)
    requires decay > 0.0 && rates != []
    ensures r.sampleCount == sampleCount && IsAverage(decay, rates, sqrt, r)
  {
    var m := |rates|;
    var sumWeight, sumWeightedRate := 0.0, 0.0;
    var weights: seq<real> := [];
    for i := 0 to m
      invariant |weights| == i && forall j :: 0 <= j < i ==> weights[j] == Weight(decay, m, j)
      invariant sumWeight == WeightSum(decay, m, i) && sumWeightedRate == Weighted(decay, rates, i)
    {
      var w := Pow(decay, m - i - 1);
      assert w == Weight(decay, m, i);
      hide Weight;
      weights := weights + [w];
      sumWeight := sumWeight + w;
      sumWeightedRate := sumWeightedRate + w * rates[i];
    }
    WeightSumPositive(decay, m, m);
    hide *;
    var weightedRate := sumWeightedRate / sumWeight;
    var sumWeightedVar := Deviation(decay, rates, weights, weightedRate);
    r := WMAResult(weightedRate, sampleCount, sqrt(sumWeightedVar / sumWeight));
    QuotientTimes(sumWeightedRate, sumWeight);
    AverageIs(decay, rates, sqrt, r, sumWeight);
  }

  method Deviation(decay: real, rates: seq<real>, weights: seq<real>, mean: real) returns (sum: real)
    requires |weights| == |rates| && forall j :: 0 <= j < |rates| ==> weights[j] == Weight(decay, |rates|, j)
    ensures sum == WeightedSquares(decay, rates, mean, |rates|)
  {
    hide Weight, SquareTerm;
    sum := 0.0;
    for i := 0 to |rates|
      invariant sum == WeightedSquares(decay, rates, mean, i)
    {
      sum := sum + SquareTerm(weights[i], rates[i] - mean);
    }
  }

  lemma AverageIs(decay: real, rates: seq<real>, sqrt: real -> real, r: WMAResult, total: real)
    requires decay > 0.0 && rates != [] && total == WeightSum(decay, |rates|, |rates|) > 0.0
    requires r.weightedRate * total == Weighted(decay, rates, |rates|)
    requires r.stdDev == sqrt(WeightedSquares(decay, rates, r.weightedRate, |rates|) / total)
    ensures IsAverage(decay, rates, sqrt, r)
  {
    hide WeightSum, Weighted, WeightedSquares;
    WeightedSquaresSign(decay, rates, r.weightedRate, |rates|);
    NonNegativeQuotient(WeightedSquares(decay, rates, r.weightedRate, |rates|), total);
  }

  ghost predicate IsRoot(sqrt: real -> real) {
    forall v {:trigger sqrt(v)} :: v >= 0.0 ==> sqrt(v) >= 0.0 && sqrt(v) * sqrt(v) == v
  }

  /** With a true square root the deviation is the root mean square distance, and 0 exactly when all rates used
      are equal. */
  lemma DeviationMeans(decay: real, rates: seq<real>, sqrt: real -> real, r: WMAResult)
    requires decay > 0.0 && rates != [] && IsAverage(decay, rates, sqrt, r) && IsRoot(sqrt)
    ensures r.stdDev >= 0.0
    ensures (r.stdDev * r.stdDev) * WeightSum(decay, |rates|, |rates|)
            == WeightedSquares(decay, rates, r.weightedRate, |rates|)
    ensures r.stdDev == 0.0 <==> forall i :: 0 <= i < |rates| ==> rates[i] == r.weightedRate
  {
    var total, squares := WeightSum(decay, |rates|, |rates|), WeightedSquares(decay, rates, r.weightedRate, |rates|);
    var v := squares / total;
    assert r.stdDev == sqrt(v) && r.stdDev >= 0.0 && r.stdDev * r.stdDev == v;
    WeightedSquaresSign(decay, rates, r.weightedRate, |rates|);
    hide *;
    QuotientTimes(squares, total);
    RootZeroIff(r.stdDev, v, squares, total);
  }

  lemma RootZeroIff(s: real, v: real, squares: real, total: real)
    requires s * s == v && v * total == squares && total > 0.0
    ensures s == 0.0 <==> squares == 0.0
  {
    if s != 0.0 {
      SquarePositive(s, v);
      PositiveProduct(v, total, squares);
    }
  }

  method WeightedMovingAverage(cfg: WMAConfig, ts: seq<int>, vs: seq<real>, sqrt: real -> real)
    returns (o: RateResult)
    ensures |ts| < 2 ==> o == TooFewPoints
    ensures |ts| >= 2 && |ts| != |vs| ==> o == LengthMismatch
    ensures |ts| >= 2 && |ts| == |vs| ==> o.Rate? && IsWma(cfg, ts, vs, sqrt, o.result)
  {
    var n := |ts|;
    if n < 2 {
      return TooFewPoints;
    }
    if n != |vs| {
      return LengthMismatch;
    }
    var rates := CollectRates(cfg, ts, vs);
    if |rates| == 0 {
      return Rate(WMAResult(0.0, n, 0.0));
    }
    var r := Average(Decay(cfg), rates, sqrt, n);
    o := Rate(r);
  }

  /** In interval `i` the work grows at `rate` per second. */
  ghost predicate Steady(ts: seq<int>, vs: seq<real>, rate: real, i: nat)
    requires 1 <= i < |ts| == |vs|
  {
    vs[i] - vs[i - 1] == rate * ElapsedSec(ts, i)
  }

  /** Work that grows at one rate has that rate in every interval in which time passes. */
  lemma {:induction false} ConstantRates(ts: seq<int>, vs: seq<real>, lo: nat, n: nat, rate: real)
    requires 1 <= lo && n <= |ts| == |vs| && forall i :: 1 <= i < n ==> Steady(ts, vs, rate, i)
    ensures forall i :: 0 <= i < |Rates(ts, vs, lo, n)| ==> Rates(ts, vs, lo, n)[i] == rate
    ensures forall i :: lo <= i < n && ElapsedSec(ts, i) > 0.0 ==> Rates(ts, vs, lo, n) != []
  {
    if n > lo {
      ConstantRates(ts, vs, lo, n - 1, rate);
      assert Steady(ts, vs, rate, n - 1);
      hide ElapsedSec;
      if ElapsedSec(ts, n - 1) > 0.0 { QuotientOf(vs[n - 1] - vs[n - 2], rate, ElapsedSec(ts, n - 1)); }
    }
  }

  /** A decay outside (0, 1) falls back to 0.85. */
  lemma DecayIs(cfg: WMAConfig)
    ensures 0.0 < Decay(cfg) < 1.0
    ensures 0.0 < cfg.decayFactor < 1.0 ==> Decay(cfg) == cfg.decayFactor
    ensures !(0.0 < cfg.decayFactor < 1.0) ==> Decay(cfg) == 0.85
  {
  }

  /** The interval before sample i of n is used exactly when i is among the last `windowSize` samples; without a
      positive window all are. */
  lemma IntervalUsedIff(cfg: WMAConfig, n: nat, i: nat)
    requires 1 <= i < n
    ensures FirstInterval(cfg, n) <= i <==> cfg.windowSize <= 0 || n - i <= cfg.windowSize
  {
  }

  /** Each interval that took time gives its increase per second, and no other interval a rate. */
  lemma RateOfInterval(ts: seq<int>, vs: seq<real>, lo: nat, n: nat)
    requires 1 <= lo < n <= |ts| == |vs|
    ensures ts[n - 1] <= ts[n - 2] ==> Rates(ts, vs, lo, n) == Rates(ts, vs, lo, n - 1)
    ensures ts[n - 1] > ts[n - 2] ==>
              && |Rates(ts, vs, lo, n)| == |Rates(ts, vs, lo, n - 1)| + 1
              && Rates(ts, vs, lo, n)[..|Rates(ts, vs, lo, n - 1)|] == Rates(ts, vs, lo, n - 1)
              && Rates(ts, vs, lo, n)[|Rates(ts, vs, lo, n - 1)|] * (ts[n - 1] - ts[n - 2]) as real
                 == (vs[n - 1] - vs[n - 2]) * 1000000000.0
  {
    var dt := (ts[n - 1] - ts[n - 2]) as real;
    var sec := ElapsedSec(ts, n - 1);
    assert sec * 1000000000.0 == dt;
    if ts[n - 1] > ts[n - 2] {
      var rise := vs[n - 1] - vs[n - 2];
      QuotientTimes(rise, sec);
      PerSecond(rise / sec, sec, rise, dt);
    }
  }

  lemma PerSecond(r: real, sec: real, rise: real, dt: real)
    requires r * sec == rise && sec * 1000000000.0 == dt
    ensures r * dt == rise * 1000000000.0
  {
  }

  // ---- the deviation by the variance identity

  ghost function SquareShare(w: real, r: real): real { w * (r * r) }

  /** The weighted sum of the squared rates themselves. */
  ghost function SquaredRates(decay: real, rates: seq<real>, k: nat): real
    requires k <= |rates|
  {
    if k == 0 then 0.0
    else SquaredRates(decay, rates, k - 1) + SquareShare(Weight(decay, |rates|, k - 1), rates[k - 1])
  }

  ghost function Expanded(sq: real, w1: real, s: real, m: real): real { sq - 2.0 * (m * w1) + m * m * s }

  lemma ExpandedStep(sq: real, w1: real, s: real, m: real, w: real, r: real)
    ensures Expanded(sq + SquareShare(w, r), w1 + Times(w, r), s + w, m)
            == Expanded(sq, w1, s, m) + SquareTerm(w, r - m)
  {
    var wr, wrr, wm := w * r, w * (r * r), w * m;
    assert w * (r - m) * (r - m) == wrr - 2.0 * (m * wr) + m * wm;
    assert m * (w1 + wr) == m * w1 + m * wr;
    assert m * m * (s + w) == m * m * s + m * wm;
  }

  lemma {:induction false} SquaresExpand(decay: real, rates: seq<real>, m: real, k: nat)
    requires k <= |rates|
    ensures WeightedSquares(decay, rates, m, k)
            == Expanded(SquaredRates(decay, rates, k), Weighted(decay, rates, k), WeightSum(decay, |rates|, k), m)
  {
    hide Expanded, SquareShare, SquareTerm, Times, Weight;
    if k == 0 {
      ExpandedZero(m);
    } else {
      SquaresExpand(decay, rates, m, k - 1);
      SumsSnoc(decay, rates, k);
      ExpandedStep(SquaredRates(decay, rates, k - 1), Weighted(decay, rates, k - 1),
                   WeightSum(decay, |rates|, k - 1), m, Weight(decay, |rates|, k - 1), rates[k - 1]);
    }
  }

  lemma ExpandedZero(m: real)
    ensures Expanded(0.0, 0.0, 0.0, m) == 0.0
  {
  }

  /** About the weighted mean, the squared distances are the squares less the mean's own share. */
  lemma VarianceIdentity(decay: real, rates: seq<real>, sqrt: real -> real, r: WMAResult)
    requires decay > 0.0 && rates != [] && IsAverage(decay, rates, sqrt, r)
    ensures WeightedSquares(decay, rates, r.weightedRate, |rates|)
            == SquaredRates(decay, rates, |rates|) - SquareShare(WeightSum(decay, |rates|, |rates|), r.weightedRate)
  {
    var m, s := r.weightedRate, WeightSum(decay, |rates|, |rates|);
    var w1, sq := Weighted(decay, rates, |rates|), SquaredRates(decay, rates, |rates|);
    assert m * s == w1;
    hide *;
    SquaresExpand(decay, rates, m, |rates|);
    ExpandedAtMean(sq, w1, s, m);
  }

  lemma ExpandedAtMean(sq: real, w1: real, s: real, m: real)
    requires m * s == w1
    ensures Expanded(sq, w1, s, m) == sq - SquareShare(s, m)
  {
    assert m * m * s == m * w1 && s * (m * m) == m * (m * s);
  }
}
