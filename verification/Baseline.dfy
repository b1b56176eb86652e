/** The `STLBaseline` object (internal/ml/baseline.go): ring buffers updated in place, snapshots and loading. */
module Baseline {
  import opened BaselineState

  datatype BaselineSnapshot = BaselineSnapshot(
    metricKey: string, period: nat, windowSize: nat, ewma: real, ewmaAlpha: real,
    seasonal: seq<real>, seasonN: seq<nat>, residuals: seq<real>, resCount: nat, totalSeen: nat, sumAll: real)

  /** A snapshot as `Snapshot` writes it. */
  ghost predicate GoodSnapshot(s: BaselineSnapshot) {
    && s.period >= 1 && s.windowSize >= 1 && |s.seasonal| >= s.period && |s.seasonN| >= s.period
    && |s.residuals| == s.resCount <= s.windowSize && (s.resCount > 0 ==> s.totalSeen > 0)
  }

  /** Any list cut or filled with zeros to a length, as copying into a fresh slice does. */
  function Fitted(xs: seq<real>, n: nat): (r: seq<real>)
    ensures |r| == n && (|xs| == n ==> r == xs)
  {
    seq(n, i requires 0 <= i < n => if i < |xs| then xs[i] else 0.0)
  }

  /** A snapshot that loads into a baseline which can be used. */
  ghost predicate Usable(s: BaselineSnapshot) {
    && s.period >= 1 && |s.seasonal| >= s.period && |s.seasonN| >= s.period
    && s.resCount <= s.windowSize && (s.resCount > 0 ==> s.totalSeen > 0)
  }

  /** The live content of a ring buffer, oldest first. */
  function View(buf: seq<real>, head: nat, count: nat): seq<real>
    requires head <= |buf| && count <= |buf|
  {
    if count < |buf| then buf[..count] else buf[head..] + buf[..head]
  }

  ghost predicate RingOk(buf: array<real>, head: nat, count: nat) {
    head < buf.Length && count <= buf.Length && (count < buf.Length ==> head == count)
  }

  /** Writing at the head and moving it on pushes onto the view. */
  lemma PushView(buf: seq<real>, head: nat, count: nat, x: real)
    requires head < |buf| && count <= |buf| && (count < |buf| ==> head == count)
    ensures var head' := (head + 1) % |buf|;
            var count' := if count < |buf| then count + 1 else count;
            && head' < |buf| && (count' < |buf| ==> head' == count')
            && View(buf[head := x], head', count') == Push(View(buf, head, count), |buf|, x)
  {
    var n, b := |buf|, buf[head := x];
    if head + 1 < n {
      assert (head + 1) % n == head + 1;
      if count == n {
        assert b[head + 1..] + b[..head + 1] == (buf[head..] + buf[..head])[1..] + [x];
      } else {
        assert b[..count + 1] == buf[..count] + [x];
      }
    } else {
      assert (head + 1) % n == 0;
      if count == n {
        assert b == (buf[head..] + buf[..head])[1..] + [x];
      } else {
        assert b == buf[..count] + [x];
      }
      assert b[0..] + b[..0] == b;
    }
  }

  method PushRing(buf: array<real>, head: nat, count: nat, x: real) returns (head': nat, count': nat)
    requires RingOk(buf, head, count)
    modifies buf
    ensures RingOk(buf, head', count') && (count' > 0)
    ensures View(buf[..], head', count') == Push(old(View(buf[..], head, count)), buf.Length, x)
  {
    PushView(buf[..], head, count, x);
    buf[head] := x;
    assert buf[..] == old(buf[..])[head := x];
    head', count' := (head + 1) % buf.Length, count;
    if count < buf.Length {
      count' := count + 1;
    }
  }

  /** The index arithmetic of `Snapshot` walks the view in order. */
  lemma ViewAt(buf: seq<real>, head: nat, count: nat, i: nat)
    requires head < |buf| && count <= |buf| && (count < |buf| ==> head == count) && i < count
    ensures 0 <= head - count + i + |buf|
    ensures buf[(head - count + i + |buf|) % |buf|] == View(buf, head, count)[i]
  {
    var n := |buf|;
    var t := head - count + i + n;
    if count < n {
      assert t == i + n;
      ModPlus(i, n);
      DivUnique(i, n, 0, i);
    } else {
      assert t == head + i;
      if t < n {
        DivUnique(t, n, 0, t);
      } else {
        DivUnique(t, n, 1, t - n);
      }
    }
  }

  class STLBaseline {
    const metricKey: string
    const period: nat
    const windowSize: nat
    const ewmaAlpha: real
    const ring: array<real>
    var rHead: nat
    var rCount: nat
    const residuals: array<real>
    var resHead: nat
    var resCount: nat
    var ewma: real
    var seasonal: seq<real>
    var seasonN: seq<nat>
    var totalSeen: nat
    var sumAll: real
    var trend0: real
    var trend1: real
    var seasonIdx: nat

    ghost predicate Valid()
      reads this, ring, residuals
    {
      && period >= 1 && windowSize >= 1 && ring != residuals
      && ring.Length == windowSize && residuals.Length == windowSize
      && RingOk(ring, rHead, rCount) && RingOk(residuals, resHead, resCount)
      && |seasonal| >= period && |seasonN| >= period && (resCount > 0 ==> totalSeen > 0)
    }

    /** `residualSlice`. */
    function ResidualSlice(): (r: seq<real>)
      reads this, ring, residuals
      requires Valid()
      ensures |r| == resCount
    {
      View(residuals[..], resHead, resCount)
    }

    ghost function Observations(): seq<real>
      reads this, ring, residuals
      requires Valid()
    {
      View(ring[..], rHead, rCount)
    }

    /** The object as a value: everything scoring and forecasting can see. */
    ghost function Abs(): (s: State)
      reads this, ring, residuals
      requires Valid()
      ensures Sane(s)
    {
      State(period, windowSize, ewmaAlpha, ewma, trend0, trend1, seasonal, seasonN, seasonIdx, totalSeen, sumAll,
            ResidualSlice())
    }

    constructor (key: string, period: nat)
      requires period >= 1
      ensures Valid() && fresh(ring) && fresh(residuals) && Abs() == Init(period) && metricKey == key
      ensures Observations() == []
    {
      var size := WindowFor(period);
      metricKey, this.period, windowSize := key, period, size;
      ring, residuals := new real[size](_ => 0.0), new real[size](_ => 0.0);
      ewmaAlpha := 2.0 / (size + 1) as real;
      seasonal, seasonN := Zeros(period), seq(period, _ => 0);
      rHead, rCount, resHead, resCount := 0, 0, 0, 0;
      ewma, sumAll, trend0, trend1, totalSeen, seasonIdx := 0.0, 0.0, 0.0, 0.0, 0, 0;
    }

    /** `LoadFromSnapshot`: it takes any snapshot with a window (the source divides by it) as it stands, and the
        baseline can be used exactly when the snapshot's lists and counters fit together. */
    constructor Load(s: BaselineSnapshot)
      requires s.windowSize >= 1
      ensures fresh(ring) && fresh(residuals) && metricKey == s.metricKey
      ensures period == s.period && windowSize == s.windowSize && ewmaAlpha == s.ewmaAlpha && ewma == s.ewma
      ensures ring[..] == Fitted([], s.windowSize) && residuals[..] == Fitted(s.residuals, s.windowSize)
      ensures resCount == s.resCount && resHead == s.resCount % s.windowSize && rHead == rCount == 0
      ensures seasonal == s.seasonal && seasonN == s.seasonN && totalSeen == s.totalSeen && sumAll == s.sumAll
      ensures trend0 == trend1 == s.ewma && seasonIdx == if s.period > 0 then s.totalSeen % s.period else 0
      ensures Valid() <==> Usable(s)
      ensures Usable(s) ==>
                Abs() == State(s.period, s.windowSize, s.ewmaAlpha, s.ewma, s.ewma, s.ewma, s.seasonal, s.seasonN,
                               s.totalSeen % s.period, s.totalSeen, s.sumAll, Fitted(s.residuals, s.resCount))
    {
      metricKey, period, windowSize := s.metricKey, s.period, s.windowSize;
      ring := new real[s.windowSize](_ => 0.0);
      residuals := new real[s.windowSize](i => if 0 <= i < |s.residuals| then s.residuals[i] else 0.0);
      ewma, ewmaAlpha, seasonal, seasonN := s.ewma, s.ewmaAlpha, s.seasonal, s.seasonN;
      resCount, totalSeen, sumAll := s.resCount, s.totalSeen, s.sumAll;
      resHead := s.resCount % s.windowSize;
      rHead, rCount := 0, 0;
      seasonIdx := 0;
      if s.period > 0 {
        seasonIdx := s.totalSeen % s.period;
      }
      trend0, trend1 := s.ewma, s.ewma;
      new;
      assert ring[..] == Fitted([], s.windowSize);
      assert residuals[..] == Fitted(s.residuals, s.windowSize);
      if s.resCount <= s.windowSize {
        LoadedHead(s.resCount, s.windowSize);
        assert residuals[..s.resCount] == Fitted(s.residuals, s.resCount);
      }
    }

    /** What one more value does to the trend and to its bucket, and the residual it leaves. */
    method NextValues(value: real) returns (trend: real, mean: real, residual: real)
      requires Valid()
      ensures trend == NextEwma(Abs(), value) && mean == NextSeasonal(Abs(), value)
      ensures residual == Residual(Abs(), value)
    {
      if totalSeen == 0 {
        trend := value;
      } else {
        trend := ewmaAlpha * value + (1.0 - ewmaAlpha) * ewma;
      }
      var bucket := totalSeen % period;
      var n := (seasonN[bucket] + 1) as real;
      mean := (seasonal[bucket] * (n - 1.0) + value) / n;
      assert trend == NextEwma(Abs(), value) && mean == NextSeasonal(Abs(), value);
      hide NextEwma, NextSeasonal;
      var overallMean := (sumAll + value) / (totalSeen + 1) as real;
      var season := mean - overallMean;
      residual := value - trend - season;
    }

    /** `Update`. */
    method Observe(value: real)
      requires Valid()
      modifies this, ring, residuals
      ensures Valid()
      ensures Abs() == Update(old(Abs()), value)
      ensures Observations() == Push(old(Observations()), windowSize, value)
    {
      hide NextEwma, NextSeasonal, Residual, Push, View;
      var trend, mean, residual := NextValues(value);
      ewma := trend;
      trend0 := trend1;
      trend1 := ewma;
      var bucket := totalSeen % period;
      seasonal := seasonal[bucket := mean];
      seasonN := seasonN[bucket := seasonN[bucket] + 1];
      seasonIdx := bucket;
      sumAll := sumAll + value;
      totalSeen := totalSeen + 1;
      resHead, resCount := PushRing(residuals, resHead, resCount, residual);
      rHead, rCount := PushRing(ring, rHead, rCount, value);
    }

    method ScoreValue(st: Stats, value: real) returns (zScore: real, isIQR: bool)
      requires Valid()
      ensures (zScore, isIQR) == Score(Abs(), st, value)
    {
      zScore, isIQR := 0.0, false;
      if resCount < period * 2 {
        return;
      }
      var bucket := totalSeen % period;
      var overallMean := sumAll / totalSeen as real;
      var season := seasonal[bucket] - overallMean;
      var residual := value - ewma - season;
      var resSlice := ResidualSlice();
      var mean := st.mean(resSlice);
      var stddev := st.stdDev(resSlice);
      if stddev > 0.0000000001 {
        zScore := (residual - mean) / stddev;
      }
      var q1, q3 := st.quantile(0.25, resSlice), st.quantile(0.75, resSlice);
      var iqr := q3 - q1;
      isIQR := residual < q1 - 1.5 * iqr || residual > q3 + 1.5 * iqr;
    }

    method Predict(st: Stats, n: nat, z: real, interval: int, now: int) returns (points: seq<ForecastPoint>)
      requires Valid()
      ensures points == Forecast(Abs(), st, n, z, interval, now)
    {
      points := [];
      if totalSeen < period || period == 0 {
        return;
      }
      var slope := 0.0;
      if totalSeen >= 2 {
        slope := trend1 - trend0;
      }
      var lastTrend := ewma;
      var margin := z * st.residualStddev(ResidualSlice());
      for k := 1 to n + 1
        invariant |points| == k - 1
        invariant forall i :: 0 <= i < k - 1 ==> points[i] == ForecastAt(Abs(), st, i + 1, z, interval, now)
      {
        var trendContrib := lastTrend + slope * k as real;
        var idx := (seasonIdx + k) % period;
        var val := trendContrib + seasonal[idx];
        points := points + [ForecastPoint(k, now + k * interval, val, val - margin, val + margin)];
      }
    }

    method Snapshot() returns (s: BaselineSnapshot)
      requires Valid()
      ensures GoodSnapshot(s)
      ensures s == BaselineSnapshot(metricKey, period, windowSize, ewma, ewmaAlpha, seasonal, seasonN,
                                    Abs().residuals, resCount, totalSeen, sumAll)
    {
      var live: seq<real> := [];
      for i := 0 to resCount
        invariant live == ResidualSlice()[..i]
      {
        ViewAt(residuals[..], resHead, resCount, i);
        var idx := (resHead - resCount + i + windowSize) % windowSize;
        live := live + [residuals[idx]];
      }
      s := BaselineSnapshot(metricKey, period, windowSize, ewma, ewmaAlpha, seasonal, seasonN, live, resCount,
                            totalSeen, sumAll);
    }
  }

  lemma LoadedHead(count: nat, size: nat)
    requires size >= 1 && count <= size
    ensures count < size ==> count % size == count
    ensures count == size ==> count % size == 0
  {
    if count < size { DivUnique(count, size, 0, count); } else { DivUnique(count, size, 1, 0); }
  }

  /** Persisting a baseline and loading it back is `Reload` on values, so that the bisimulation results
      about `Reload` are results about these objects. */
  method Roundtrip(b: STLBaseline) returns (r: STLBaseline)
    requires b.Valid()
    ensures r.Valid() && fresh(r) && r.Abs() == Reload(b.Abs())
  {
    var s := b.Snapshot();
    r := new STLBaseline.Load(s);
  }
}
