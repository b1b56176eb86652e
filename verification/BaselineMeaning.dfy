/** Averages, residuals, scores and forecasts of a baseline (internal/ml/baseline.go) in terms of the history of
    observations alone. */
module BaselineMeaning {
  import opened RealFacts
  import opened BaselineState
  import opened BaselineHistory

  /** Scoring starts when two full periods have been seen. */
  lemma ReadyIff(period: nat, vs: seq<real>)
    requires period >= 1
    ensures |Run(Init(period), vs).residuals| >= 2 * period <==> |vs| >= 2 * period
  {
    hide Run, Init, AllResiduals;
    ResidualWindow(period, vs);
  }

  // ---- the seasonal means

  lemma {:induction false} BucketMet(n: nat, period: nat, b: nat)
    requires period >= 1 && b < period && b < n
    ensures BucketCount(n, period, b) >= 1
  {
    if b == n - 1 { DivUnique(n - 1, period, 0, n - 1); } else { BucketMet(n - 1, period, b); }
  }

  /** The mean of the observations of one bucket. */
  ghost function BucketMean(vs: seq<real>, period: nat, b: nat): real
    requires period >= 1 && BucketCount(|vs|, period, b) >= 1
  {
    BucketSum(vs, period, b) / BucketCount(|vs|, period, b) as real
  }

  lemma SeasonalIsBucketMean(period: nat, vs: seq<real>, b: nat)
    requires period >= 1 && b < period && BucketCount(|vs|, period, b) >= 1
    ensures Run(Init(period), vs).period == period
    ensures Run(Init(period), vs).seasonal[b] == BucketMean(vs, period, b)
  {
    hide Run, Init, BucketSum, BucketCount;
    SeasonalIsMean(period, vs, b);
    QuotientOf(BucketSum(vs, period, b), Run(Init(period), vs).seasonal[b], BucketCount(|vs|, period, b) as real);
  }

  // ---- the average

  ghost function Share(w: real, v: real): real { w * v }

  /** The average before and after one more value. */
  lemma EwmaSnoc(period: nat, vs: seq<real>)
    requires period >= 1 && vs != []
    ensures var alpha, v := Init(period).ewmaAlpha, vs[|vs| - 1];
            Run(Init(period), vs).ewma
            == if |vs| == 1 then v
               else Share(alpha, v) + Share(1.0 - alpha, Run(Init(period), vs[..|vs| - 1]).ewma)
  {
    hide Init, Update, Share, Sane;
    var p, v := Run(Init(period), vs[..|vs| - 1]), vs[|vs| - 1];
    assert Run(Init(period), vs) == Update(p, v);
    hide Run;
    AlphaKept(period, vs[..|vs| - 1]);
    EwmaUpdate(p, v);
  }

  lemma EwmaUpdate(p: State, v: real)
    requires Sane(p)
    ensures Update(p, v).ewma
            == if p.totalSeen == 0 then v else Share(p.ewmaAlpha, v) + Share(1.0 - p.ewmaAlpha, p.ewma)
  {
    hide NextSeasonal, Residual, Push;
  }

  function Power(b: real, n: nat): real { if n == 0 then 1.0 else b * Power(b, n - 1) }

  /** The newest observation weighs alpha, each older one (1 - alpha) times the next, and the first one the rest. */
  ghost function WeightOf(alpha: real, age: nat, first: bool): real {
    if first then Power(1.0 - alpha, age) else alpha * Power(1.0 - alpha, age)
  }

  ghost function WeightedHistory(alpha: real, vs: seq<real>, n: nat): real
    requires n <= |vs|
  {
    if n == 0 then 0.0 else WeightedHistory(alpha, vs, n - 1) + Share(WeightOf(alpha, |vs| - n, n == 1), vs[n - 1])
  }

  lemma WeightAges(alpha: real, age: nat, first: bool)
    ensures WeightOf(alpha, age + 1, first) == Share(1.0 - alpha, WeightOf(alpha, age, first))
  {
    var b, p := 1.0 - alpha, Power(1.0 - alpha, age);
    assert Power(b, age + 1) == b * p;
    hide Power;
    assert alpha * (b * p) == b * (alpha * p);
  }

  lemma AgedShare(b: real, sum: real, w: real, w': real, v: real)
    requires w' == Share(b, w)
    ensures Share(b, sum) + Share(w', v) == Share(b, sum + Share(w, v))
  {
    assert (b * w) * v == b * (w * v);
  }

  /** One more observation ages all others by one factor. */
  lemma {:induction false} HistoryAges(alpha: real, vs: seq<real>, v: real, n: nat)
    requires n <= |vs|
    ensures WeightedHistory(alpha, vs + [v], n) == Share(1.0 - alpha, WeightedHistory(alpha, vs, n))
  {
    if n == 0 {
      assert Share(1.0 - alpha, 0.0) == 0.0;
    } else {
      hide WeightOf, Share;
      HistoryAges(alpha, vs, v, n - 1);
      WeightAges(alpha, |vs| - n, n == 1);
      AgedShare(1.0 - alpha, WeightedHistory(alpha, vs, n - 1), WeightOf(alpha, |vs| - n, n == 1),
                WeightOf(alpha, |vs| - n + 1, n == 1), vs[n - 1]);
    }
  }

  /** The average is the exponentially weighted sum of all observations, with alpha = 2 / (window + 1). */
  lemma {:induction false} EwmaIsWeighted(period: nat, vs: seq<real>)
    requires period >= 1 && vs != []
    ensures Run(Init(period), vs).ewma == WeightedHistory(2.0 / (WindowFor(period) + 1) as real, vs, |vs|)
  {
    var alpha, init, v := Init(period).ewmaAlpha, vs[..|vs| - 1], vs[|vs| - 1];
    assert alpha == 2.0 / (WindowFor(period) + 1) as real && vs == init + [v];
    hide Run, Init, Share, WeightedHistory, WindowFor;
    EwmaSnoc(period, vs);
    NewestShare(alpha, vs);
    if init != [] {
      EwmaIsWeighted(period, init);
      HistoryAges(alpha, init, v, |init|);
    }
  }

  lemma NewestShare(alpha: real, vs: seq<real>)
    requires vs != []
    ensures WeightedHistory(alpha, vs, |vs|)
            == if |vs| == 1 then vs[0] else WeightedHistory(alpha, vs, |vs| - 1) + Share(alpha, vs[|vs| - 1])
  {
    assert WeightOf(alpha, 0, true) == 1.0 && WeightOf(alpha, 0, false) == alpha;
    hide WeightOf;
    if |vs| == 1 { assert WeightedHistory(alpha, vs, 0) == 0.0; }
  }

  // ---- the residuals

  /** The residual an observation leaves: its distance from the average, less its bucket's distance from the
      mean of all, each taken with the observation included. */
  lemma ResidualIs(period: nat, vs: seq<real>, b: nat)
    requires period >= 1 && vs != [] && b == (|vs| - 1) % period
    ensures BucketCount(|vs|, period, b) >= 1 && |AllResiduals(period, vs)| == |vs|
    ensures AllResiduals(period, vs)[|vs| - 1]
            == vs[|vs| - 1] - Run(Init(period), vs).ewma
               - (BucketMean(vs, period, b) - Total(vs) / |vs| as real)
  {
    ResidualWindow(period, vs);
    LastResidual(period, vs, b);
    assert BucketCount(|vs|, period, b) >= 1;
    hide Run, Init, BucketMean, BucketCount;
    SeasonalIsMean(period, vs, b);
    SeasonalIsBucketMean(period, vs, b);
  }

  lemma LastResidual(period: nat, vs: seq<real>, b: nat)
    requires period >= 1 && vs != [] && b == (|vs| - 1) % period && |AllResiduals(period, vs)| == |vs|
    ensures var s := Run(Init(period), vs);
            && s.period == period && s.totalSeen == |vs|
            && AllResiduals(period, vs)[|vs| - 1]
               == vs[|vs| - 1] - s.ewma - (s.seasonal[b] - s.sumAll / |vs| as real)
  {
    var init, v := vs[..|vs| - 1], vs[|vs| - 1];
    var p := Run(Init(period), init);
    ResidualWindow(period, init);
    AlphaKept(period, init);
    assert AllResiduals(period, vs)[|vs| - 1] == Residual(p, v);
    assert Run(Init(period), vs) == Update(p, v);
    hide Run, Init, AllResiduals;
    UpdateShows(p, v);
  }

  lemma UpdateShows(p: State, v: real)
    requires Sane(p)
    ensures var s := Update(p, v);
            && s.period == p.period && s.totalSeen == p.totalSeen + 1
            && Residual(p, v) == v - s.ewma - (s.seasonal[p.totalSeen % p.period] - s.sumAll / s.totalSeen as real)
  {
    hide NextEwma, NextSeasonal;
  }

  // ---- forecasts

  /** The trend memory holds the last two averages. */
  lemma TrendMemory(period: nat, vs: seq<real>)
    requires period >= 1 && |vs| >= 2
    ensures Run(Init(period), vs).trend1 == Run(Init(period), vs).ewma
    ensures Run(Init(period), vs).trend0 == Run(Init(period), vs[..|vs| - 1]).ewma
    ensures Run(Init(period), vs).totalSeen == |vs|
  {
    AlphaKept(period, vs);
    TrendIsEwma(Init(period), vs);
    TrendIsEwma(Init(period), vs[..|vs| - 1]);
  }

  ghost function Moved(d: real, k: nat): real { d * k as real }

  /** Horizon k of a forecast in terms of the history alone: the average, moved on k times by its last change,
      plus the mean of the bucket j that the horizon falls on. */
  lemma ForecastOfHistory(period: nat, vs: seq<real>, k: nat, j: nat)
    requires period >= 1 && |vs| >= 2 && |vs| >= period && j == (|vs| - 1 + k) % period
    ensures BucketCount(|vs|, period, j) >= 1
    ensures var last, before := Run(Init(period), vs).ewma, Run(Init(period), vs[..|vs| - 1]).ewma;
            ForecastValue(Run(Init(period), vs), k)
            == last + Moved(last - before, k) + BucketMean(vs, period, j)
  {
    hide Run, Init, BucketMean, BucketCount, Season;
    BucketMet(|vs|, period, j);
    SeasonalIsBucketMean(period, vs, j);
    TrendMemory(period, vs);
    var s := Run(Init(period), vs);
    HorizonSlot(period, vs, k, j);
    SeasonAt(s, s.seasonIdx + k, j);
  }

  lemma HorizonSlot(period: nat, vs: seq<real>, k: nat, j: nat)
    requires period >= 1 && vs != [] && j == (|vs| - 1 + k) % period
    ensures Run(Init(period), vs).period == period && (Run(Init(period), vs).seasonIdx + k) % period == j
  {
    hide Run, Init;
    SeasonIdxIs(period, vs);
    SlotAfter(Run(Init(period), vs).seasonIdx, |vs| - 1, k, period, j);
  }

  lemma SlotAfter(i: nat, n: nat, k: nat, p: nat, j: nat)
    requires p >= 1 && i == n % p && j == (n + k) % p
    ensures (i + k) % p == j
  {
    ModAdd(n, k, p);
  }

  /** Over a whole period the season cancels: what is left is the last change of the average, once per step. */
  lemma ForecastDrift(period: nat, vs: seq<real>, k: nat)
    requires period >= 1 && |vs| >= 2 && |vs| >= period
    ensures var s := Run(Init(period), vs);
            ForecastValue(s, k + period) - ForecastValue(s, k)
            == Moved(s.ewma - Run(Init(period), vs[..|vs| - 1]).ewma, period)
  {
    hide Run, Init, BucketMean, BucketCount, ForecastValue, Moved, Sane;
    ForecastTwice(period, vs, k);
    DriftAdds(Run(Init(period), vs).ewma - Run(Init(period), vs[..|vs| - 1]).ewma, k, period);
  }

  lemma ForecastTwice(period: nat, vs: seq<real>, k: nat)
    requires period >= 1 && |vs| >= 2 && |vs| >= period
    ensures var s, d := Run(Init(period), vs), Run(Init(period), vs).ewma - Run(Init(period), vs[..|vs| - 1]).ewma;
            ForecastValue(s, k + period) - Moved(d, k + period) == ForecastValue(s, k) - Moved(d, k)
  {
    hide Run, Init, BucketMean, BucketCount, ForecastValue, Moved, Sane;
    var j := SlotAgain(|vs| - 1, k, period);
    ForecastOfHistory(period, vs, k, j);
    ForecastOfHistory(period, vs, k + period, j);
  }

  lemma SlotAgain(n: nat, k: nat, p: nat) returns (j: nat)
    requires p >= 1
    ensures j == (n + k) % p && j == (n + (k + p)) % p
  {
    j := (n + k) % p;
    ModPlus(n + k, p);
    assert n + (k + p) == (n + k) + p;
  }

  lemma DriftAdds(d: real, k: nat, p: nat)
    ensures Moved(d, k + p) == Moved(d, k) + Moved(d, p)
  {
    assert (k + p) as real == k as real + p as real;
  }

  /** What a forecast consists of: nothing before a full period; then one point per horizon, a constant time
      apart, with a band of one margin on either side. */
  lemma ForecastShape(s: State, st: Stats, n: nat, z: real, interval: int, now: int, k: nat)
    requires Sane(s)
    ensures s.totalSeen < s.period ==> Forecast(s, st, n, z, interval, now) == []
    ensures s.totalSeen >= s.period ==> |Forecast(s, st, n, z, interval, now)| == n
    ensures s.totalSeen >= s.period && 1 <= k <= n ==>
              var p, margin := Forecast(s, st, n, z, interval, now)[k - 1], z * st.residualStddev(s.residuals);
              && p.offset == k && p.value == ForecastValue(s, k) && p.predictedAt == now + k * interval
              && p.upper - p.value == margin && p.value - p.lower == margin
              && (z >= 0.0 && st.residualStddev(s.residuals) >= 0.0 ==> p.lower <= p.value <= p.upper)
  {
    hide ForecastValue;
    NonNegativeProduct(z, st.residualStddev(s.residuals), z * st.residualStddev(s.residuals));
  }

  lemma NonNegativeProduct(p: real, q: real, r: real)
    requires r == p * q
    ensures p >= 0.0 && q >= 0.0 ==> r >= 0.0
  {
  }
}
