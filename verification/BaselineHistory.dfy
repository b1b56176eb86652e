/** The incremental baseline against batch definitions over its whole history, and its invariance under
    a shift of the metric. */
module BaselineHistory {
  import opened RealFacts
  import opened Basics
  import opened BaselineState

  ghost function Total(vs: seq<real>): real {
    if vs == [] then 0.0 else Total(vs[..|vs| - 1]) + vs[|vs| - 1]
  }

  /** Sum and number of the observations whose position is `b` in the cycle. */
  ghost function BucketSum(vs: seq<real>, period: nat, b: nat): real
    requires period >= 1
  {
    if vs == [] then 0.0
    else BucketSum(vs[..|vs| - 1], period, b) + if (|vs| - 1) % period == b then vs[|vs| - 1] else 0.0
  }

  ghost function BucketCount(n: nat, period: nat, b: nat): nat
    requires period >= 1
  {
    if n == 0 then 0 else BucketCount(n - 1, period, b) + if (n - 1) % period == b then 1 else 0
  }

  lemma FoldedMean(old_: real, n: nat, v: real, sum: real, r: real)
    requires old_ * n as real == sum && r == (old_ * ((n + 1) as real - 1.0) + v) / (n + 1) as real
    ensures r * (n + 1) as real == sum + v
  {
    var m := (n + 1) as real;
    assert m - 1.0 == n as real;
    QuotientIs(old_ * (m - 1.0) + v, m, r);
  }

  /** A folded mean times the number of values folded into it. */
  ghost function BucketTotal(s: State, b: nat): real
    requires Sane(s) && b < s.period
  {
    s.seasonal[b] * s.seasonN[b] as real
  }

  /** Each folded mean is the mean of the observations at its position; the running total is their sum. */
  lemma {:induction false} SeasonalIsMean(period: nat, vs: seq<real>, b: nat)
    requires period >= 1 && b < period
    ensures var s := Run(Init(period), vs);
            && s.period == period && s.totalSeen == |vs| && s.sumAll == Total(vs)
            && s.seasonN[b] == BucketCount(|vs|, period, b)
            && BucketTotal(s, b) == BucketSum(vs, period, b)
  {
    if vs != [] {
      var init, v := vs[..|vs| - 1], vs[|vs| - 1];
      SeasonalIsMean(period, init, b);
      var s := Run(Init(period), init);
      hide Update, Init, BucketTotal;
      UpdateBucket(s, v, b);
      UpdateTotals(s, v);
    }
  }

  lemma UpdateTotals(s: State, v: real)
    requires Sane(s)
    ensures var s' := Update(s, v);
            s'.period == s.period && s'.totalSeen == s.totalSeen + 1 && s'.sumAll == s.sumAll + v
  {
    hide NextSeasonal, Residual, NextEwma, Push;
  }

  lemma UpdateBucket(s: State, v: real, b: nat)
    requires Sane(s) && b < s.period
    ensures var s' := Update(s, v);
            && s'.period == s.period
            && s'.seasonN[b] == s.seasonN[b] + (if s.totalSeen % s.period == b then 1 else 0)
            && BucketTotal(s', b) == BucketTotal(s, b) + if s.totalSeen % s.period == b then v else 0.0
  {
    if Bucket(s) == b {
      FoldedMean(s.seasonal[b], s.seasonN[b], v, BucketTotal(s, b), NextSeasonal(s, v));
      hide NextSeasonal, Residual, NextEwma, Push;
    } else {
      hide NextSeasonal, Residual, NextEwma, Push;
    }
  }

  // ---- totals over the buckets

  ghost function SumCounts(ns: seq<nat>, k: nat): nat
    requires k <= |ns|
  {
    if k == 0 then 0 else SumCounts(ns, k - 1) + ns[k - 1]
  }

  ghost function SumWeighted(xs: seq<real>, ns: seq<nat>, k: nat): real
    requires k <= |xs| && k <= |ns|
  {
    if k == 0 then 0.0 else SumWeighted(xs, ns, k - 1) + Term(xs, ns, k - 1)
  }

  ghost function Term(xs: seq<real>, ns: seq<nat>, i: nat): real
    requires i < |xs| && i < |ns|
  {
    xs[i] * ns[i] as real
  }

  lemma TermUpdate(xs: seq<real>, ns: seq<nat>, b: nat, x: real, v: real, i: nat)
    requires b < |xs| && b < |ns| && i < |xs| && i < |ns| && x * (ns[b] + 1) as real == xs[b] * ns[b] as real + v
    ensures Term(xs[b := x], ns[b := ns[b] + 1], i) == Term(xs, ns, i) + if i == b then v else 0.0
  {
  }

  lemma {:induction false} SumsUpdate(xs: seq<real>, ns: seq<nat>, b: nat, x: real, v: real, k: nat)
    requires b < |xs| && b < |ns| && k <= |xs| && k <= |ns| && x * (ns[b] + 1) as real == xs[b] * ns[b] as real + v
    ensures SumCounts(ns[b := ns[b] + 1], k) == SumCounts(ns, k) + if b < k then 1 else 0
    ensures SumWeighted(xs[b := x], ns[b := ns[b] + 1], k) == SumWeighted(xs, ns, k) + if b < k then v else 0.0
  {
    if k > 0 {
      SumsUpdate(xs, ns, b, x, v, k - 1);
      TermUpdate(xs, ns, b, x, v, k - 1);
    }
  }

  lemma {:induction false} ZeroSums(xs: seq<real>, ns: seq<nat>, k: nat)
    requires k <= |xs| && k <= |ns| && forall i :: 0 <= i < |ns| ==> ns[i] == 0
    ensures SumCounts(ns, k) == 0 && SumWeighted(xs, ns, k) == 0.0
  {
    if k > 0 { ZeroSums(xs, ns, k - 1); }
  }

  lemma PartitionStep(s: State, v: real)
    requires Sane(s) && SumCounts(s.seasonN, s.period) == s.totalSeen
    requires SumWeighted(s.seasonal, s.seasonN, s.period) == s.sumAll
    ensures var s' := Update(s, v);
            && s'.period == s.period && SumCounts(s'.seasonN, s'.period) == s'.totalSeen
            && SumWeighted(s'.seasonal, s'.seasonN, s'.period) == s'.sumAll
  {
    var b := Bucket(s);
    FoldedMean(s.seasonal[b], s.seasonN[b], v, s.seasonal[b] * s.seasonN[b] as real, NextSeasonal(s, v));
    hide NextSeasonal, Residual, NextEwma, SumWeighted, SumCounts, Push;
    SumsUpdate(s.seasonal, s.seasonN, b, NextSeasonal(s, v), v, s.period);
  }

  /** The bucket counts add up to the number of updates, and the weighted means to the running total. */
  lemma {:induction false} BucketsPartition(period: nat, vs: seq<real>)
    requires period >= 1
    ensures var s := Run(Init(period), vs);
            && s.period == period
            && SumCounts(s.seasonN, period) == s.totalSeen
            && SumWeighted(s.seasonal, s.seasonN, period) == s.sumAll
  {
    if vs == [] {
      ZeroSums(Init(period).seasonal, Init(period).seasonN, period);
    } else {
      var init, v := vs[..|vs| - 1], vs[|vs| - 1];
      BucketsPartition(period, init);
      hide Update, Init, SumWeighted, SumCounts;
      PartitionStep(Run(Init(period), init), v);
    }
  }

  // ---- the trend stays within the data

  lemma AlphaInUnit(period: nat)
    requires period >= 1
    ensures 0.0 < Init(period).ewmaAlpha < 1.0
  {
    var w := (WindowFor(period) + 1) as real;
    QuotientIs(2.0, w, 2.0 / w);
  }

  lemma ScaleOrder(k: real, x: real, y: real, kx: real, ky: real)
    requires k > 0.0 && x <= y && kx == k * x && ky == k * y
    ensures kx <= ky
  {
    var gap := y - x;
    assert k * gap >= 0.0;
    assert k * gap == ky - kx;
  }

  lemma UnitSum(a: real, b: real, x: real, ax: real, bx: real)
    requires a + b == 1.0 && ax == a * x && bx == b * x
    ensures ax + bx == x
  {
    assert (a + b) * x == ax + bx;
  }

  lemma Convex(a: real, b: real, v: real, e: real, lo: real, hi: real)
    requires a > 0.0 && b > 0.0 && a + b == 1.0 && lo <= v <= hi && lo <= e <= hi
    ensures lo <= a * v + b * e <= hi
  {
    var av, be, alo, blo, ahi, bhi := a * v, b * e, a * lo, b * lo, a * hi, b * hi;
    ScaleOrder(a, lo, v, alo, av);
    ScaleOrder(a, v, hi, av, ahi);
    ScaleOrder(b, lo, e, blo, be);
    ScaleOrder(b, e, hi, be, bhi);
    UnitSum(a, b, lo, alo, blo);
    UnitSum(a, b, hi, ahi, bhi);
  }

  lemma EwmaStep(s: State, v: real, lo: real, hi: real)
    requires 0.0 < s.ewmaAlpha < 1.0 && lo <= v <= hi && (s.totalSeen > 0 ==> lo <= s.ewma <= hi)
    ensures lo <= NextEwma(s, v) <= hi
  {
    if s.totalSeen > 0 { Convex(s.ewmaAlpha, 1.0 - s.ewmaAlpha, v, s.ewma, lo, hi); }
  }

  /** The trend never leaves the range of the data. */
  lemma {:induction false} EwmaWithinData(period: nat, vs: seq<real>, lo: real, hi: real)
    requires period >= 1 && vs != [] && forall i :: 0 <= i < |vs| ==> lo <= vs[i] <= hi
    ensures lo <= Run(Init(period), vs).ewma <= hi
  {
    var init, v := vs[..|vs| - 1], vs[|vs| - 1];
    var s := Run(Init(period), init);
    assert Run(Init(period), vs).ewma == NextEwma(s, v);
    hide *;
    AlphaKept(period, init);
    AlphaInUnit(period);
    if init != [] { EwmaWithinData(period, init, lo, hi); }
    EwmaStep(s, v, lo, hi);
  }

  lemma {:induction false} AlphaKept(period: nat, vs: seq<real>)
    requires period >= 1
    ensures var s := Run(Init(period), vs);
            s.ewmaAlpha == Init(period).ewmaAlpha && s.windowSize == WindowFor(period) && s.totalSeen == |vs|
            && s.period == period
  {
    if vs != [] { AlphaKept(period, vs[..|vs| - 1]); }
  }

  // ---- the residual window

  ghost function AllResiduals(period: nat, vs: seq<real>): seq<real>
    requires period >= 1
  {
    if vs == [] then []
    else AllResiduals(period, vs[..|vs| - 1]) + [Residual(Run(Init(period), vs[..|vs| - 1]), vs[|vs| - 1])]
  }

  lemma PushLast(xs: seq<real>, n: nat, x: real)
    requires n >= 1
    ensures Push(LastN(xs, n), n, x) == LastN(xs + [x], n)
  {
  }

  /** The live residuals are the last ones computed, at most a window of them, oldest first. */
  lemma {:induction false} ResidualWindow(period: nat, vs: seq<real>)
    requires period >= 1
    ensures Run(Init(period), vs).residuals == LastN(AllResiduals(period, vs), WindowFor(period))
    ensures |AllResiduals(period, vs)| == |vs|
  {
    if vs != [] {
      var s, v := Run(Init(period), vs[..|vs| - 1]), vs[|vs| - 1];
      ResidualWindow(period, vs[..|vs| - 1]);
      AlphaKept(period, vs[..|vs| - 1]);
      assert Run(Init(period), vs).residuals == Push(s.residuals, s.windowSize, Residual(s, v));
      hide Run, Update, Residual, Init, Push;
      PushLast(AllResiduals(period, vs[..|vs| - 1]), WindowFor(period), Residual(s, v));
    }
  }

  // ---- translation

  ghost function Shifted(vs: seq<real>, c: real): (r: seq<real>)
    ensures |r| == |vs|
  {
    seq(|vs|, i requires 0 <= i < |vs| => vs[i] + c)
  }

  /** The relation between the baselines of a metric and of the metric plus a constant: only buckets that
      have been met are moved. */
  ghost predicate Offset(a: State, b: State, c: real) {
    && Sane(a) && Sane(b)
    && a.period == b.period && a.windowSize == b.windowSize && a.ewmaAlpha == b.ewmaAlpha
    && a.seasonN == b.seasonN && a.totalSeen == b.totalSeen && a.residuals == b.residuals
    && (a.totalSeen > 0 ==> b.ewma == a.ewma + c)
    && b.sumAll == a.sumAll + a.totalSeen as real * c
    && |a.seasonN| == a.period && SeasonOffset(a.seasonal, b.seasonal, a.seasonN, a.totalSeen, c)
    && |a.residuals| <= a.totalSeen
  }

  /** Buckets seen so far are apart by `c`, the others are still empty. */
  ghost predicate SeasonOffset(xs: seq<real>, ys: seq<real>, ns: seq<nat>, n: nat, c: real) {
    && |xs| == |ys| == |ns|
    && (forall i :: 0 <= i < |ns| ==> (ns[i] > 0 <==> i < n))
    && (forall i :: 0 <= i < |ns| && i < n ==> ys[i] == xs[i] + c)
    && (forall i :: 0 <= i < |ns| && n <= i ==> ys[i] == 0.0 && xs[i] == 0.0)
  }

  lemma SeasonOffsetStep(xs: seq<real>, ys: seq<real>, ns: seq<nat>, n: nat, c: real, k: nat, x: real)
    requires SeasonOffset(xs, ys, ns, n, c) && |ns| >= 1 && k == n % |ns|
    ensures SeasonOffset(xs[k := x], ys[k := x + c], ns[k := ns[k] + 1], n + 1, c)
  {
    BucketOrder(n, |ns|);
  }

  lemma MeanShift(sum: real, n: nat, c: real)
    requires n > 0
    ensures (sum + n as real * c) / n as real == sum / n as real + c
  {
    var m := n as real;
    var q := sum / m;
    QuotientIs(sum, m, q);
    assert (q + c) * m == sum + m * c;
  }

  lemma FoldShift(x: real, n: real, c: real, v: real)
    requires n >= 1.0
    ensures ((x + c) * (n - 1.0) + (v + c)) / n == (x * (n - 1.0) + v) / n + c
  {
    var p := x * (n - 1.0) + v;
    var q := p / n;
    QuotientIs(p, n, q);
    assert (x + c) * (n - 1.0) + (v + c) == p + n * c;
    assert (q + c) * n == p + n * c;
  }

  lemma EwmaShift(a: State, b: State, c: real, v: real)
    requires Offset(a, b, c)
    ensures NextEwma(b, v + c) == NextEwma(a, v) + c
  {
    if a.totalSeen > 0 {
      assert a.ewmaAlpha * (v + c) + (1.0 - a.ewmaAlpha) * (a.ewma + c)
          == a.ewmaAlpha * v + (1.0 - a.ewmaAlpha) * a.ewma + c;
    }
  }

  lemma SeasonalShift(a: State, b: State, c: real, v: real)
    requires Offset(a, b, c)
    ensures NextSeasonal(b, v + c) == NextSeasonal(a, v) + c
  {
    var k := Bucket(a);
    var n := (a.seasonN[k] + 1) as real;
    if k < a.totalSeen {
      FoldShift(a.seasonal[k], n, c, v);
    } else {
      assert n == 1.0;
    }
  }

  lemma ResidualShift(a: State, b: State, c: real, v: real)
    requires Offset(a, b, c)
    ensures Residual(b, v + c) == Residual(a, v)
  {
    EwmaShift(a, b, c, v);
    SeasonalShift(a, b, c, v);
    var n := a.totalSeen + 1;
    assert b.sumAll + (v + c) == (a.sumAll + v) + n as real * c by { CountShift(a.totalSeen, c); }
    MeanShift(a.sumAll + v, n, c);
    hide NextSeasonal, NextEwma;
  }

  lemma CountShift(n: nat, c: real)
    ensures n as real * c + c == (n + 1) as real * c
  {
    assert (n + 1) as real == n as real + 1.0;
  }

  lemma OffsetStep(a: State, b: State, c: real, v: real)
    requires Offset(a, b, c)
    ensures Offset(Update(a, v), Update(b, v + c), c)
  {
    EwmaShift(a, b, c, v);
    SeasonalShift(a, b, c, v);
    ResidualShift(a, b, c, v);
    CountShift(a.totalSeen, c);
    SeasonOffsetStep(a.seasonal, b.seasonal, a.seasonN, a.totalSeen, c, Bucket(a), NextSeasonal(a, v));
    hide NextSeasonal, NextEwma, Residual, SeasonOffset;
  }

  lemma BucketOrder(n: nat, p: nat)
    requires p >= 1
    ensures n < p ==> n % p == n
    ensures n >= p ==> n % p < n
  {
  }

  lemma {:induction false} OffsetRun(period: nat, vs: seq<real>, c: real)
    requires period >= 1
    ensures Offset(Run(Init(period), vs), Run(Init(period), Shifted(vs, c)), c)
  {
    if vs != [] {
      var init := vs[..|vs| - 1];
      OffsetRun(period, init, c);
      assert Shifted(vs, c)[..|vs| - 1] == Shifted(init, c);
      hide Update, Init, Offset;
      OffsetStep(Run(Init(period), init), Run(Init(period), Shifted(init, c)), c, vs[|vs| - 1]);
    }
  }

  lemma ScoreShift(a: State, b: State, c: real, st: Stats, x: real)
    requires Offset(a, b, c)
    ensures Score(a, st, x) == Score(b, st, x + c)
  {
    if |a.residuals| >= a.period * 2 {
      CentredShift(a, b, c);
      assert x + c - b.ewma - Centred(b) == x - a.ewma - Centred(a);
    }
    hide Judge, Centred, SeasonOffset;
  }

  lemma CentredShift(a: State, b: State, c: real)
    requires Offset(a, b, c) && a.totalSeen >= a.period
    ensures Centred(b) == Centred(a)
  {
    MeanShift(a.sumAll, a.totalSeen, c);
    BucketOrder(a.totalSeen, a.period);
    var k := Bucket(a);
    assert b.seasonal[k] == a.seasonal[k] + c;
  }

  /** Adding a constant to a metric changes neither the residuals nor any score. */
  lemma TranslationInvariant(period: nat, vs: seq<real>, c: real, st: Stats, x: real)
    requires period >= 1
    ensures Run(Init(period), Shifted(vs, c)).residuals == Run(Init(period), vs).residuals
    ensures Score(Run(Init(period), vs), st, x) == Score(Run(Init(period), Shifted(vs, c)), st, x + c)
  {
    OffsetRun(period, vs, c);
    hide Run, Init;
    ScoreShift(Run(Init(period), vs), Run(Init(period), Shifted(vs, c)), c, st, x);
  }
}
