/** The observable state of an `STLBaseline` (internal/ml/baseline.go) as a value, and what any history of
    updates makes of it. Statistics of a residual list are parameters. */
module BaselineState {
  import opened RealFacts

  datatype State = State(
    period: nat, windowSize: nat, ewmaAlpha: real, ewma: real, trend0: real, trend1: real,
    seasonal: seq<real>, seasonN: seq<nat>, seasonIdx: nat, totalSeen: nat, sumAll: real,
    residuals: seq<real>)  // the live residuals, oldest first

  /** gonum's Mean, StdDev and Quantile, and the package's own residual deviation. */
  datatype Stats = Stats(mean: seq<real> -> real, stdDev: seq<real> -> real,
                         quantile: (real, seq<real>) -> real, residualStddev: seq<real> -> real)

  datatype ForecastPoint = ForecastPoint(offset: int, predictedAt: int, value: real, lower: real, upper: real)

  ghost predicate Sane(s: State) {
    && s.period >= 1 && s.windowSize >= 1
    && |s.seasonal| >= s.period && |s.seasonN| >= s.period && |s.residuals| <= s.windowSize
    && (s.residuals != [] ==> s.totalSeen > 0)
  }

  function Zeros(n: nat): (z: seq<real>)
    ensures |z| == n && forall i :: 0 <= i < n ==> z[i] == 0.0
  {
    seq(n, _ => 0.0)
  }

  function WindowFor(period: nat): (w: nat)
    ensures w >= 1000 && w >= 3 * period && (w == 1000 || w == 3 * period)
  {
    if 3 * period > 1000 then 3 * period else 1000
  }

  function Init(period: nat): (s: State)
    requires period >= 1
    ensures Sane(s)
  {
    State(period, WindowFor(period), 2.0 / (WindowFor(period) + 1) as real, 0.0, 0.0, 0.0,
          Zeros(period), seq(period, _ => 0), 0, 0, 0.0, [])
  }

  /** A bounded buffer drops its oldest element when full. */
  function Push(xs: seq<real>, size: nat, x: real): (r: seq<real>)
    requires size >= 1
  {
    (if |xs| < size then xs else xs[1..]) + [x]
  }

  function NextEwma(s: State, v: real): real {
    if s.totalSeen == 0 then v else s.ewmaAlpha * v + (1.0 - s.ewmaAlpha) * s.ewma
  }

  function Bucket(s: State): (b: nat)
    requires s.period >= 1
    ensures b < s.period
  {
    s.totalSeen % s.period
  }

  /** The folded mean of the bucket after one more value. */
  function NextSeasonal(s: State, v: real): real
    requires Sane(s)
  {
    var n := (s.seasonN[Bucket(s)] + 1) as real;
    (s.seasonal[Bucket(s)] * (n - 1.0) + v) / n
  }

  function Residual(s: State, v: real): real
    requires Sane(s)
  {
    v - NextEwma(s, v) - (NextSeasonal(s, v) - (s.sumAll + v) / (s.totalSeen + 1) as real)
  }

  function Update(s: State, v: real): (s': State)
    requires Sane(s)
    ensures Sane(s')
  {
    var e, b := NextEwma(s, v), Bucket(s);
    s.(ewma := e, trend0 := s.trend1, trend1 := e,
       seasonal := s.seasonal[b := NextSeasonal(s, v)], seasonN := s.seasonN[b := s.seasonN[b] + 1],
       seasonIdx := b, totalSeen := s.totalSeen + 1, sumAll := s.sumAll + v,
       residuals := Push(s.residuals, s.windowSize, Residual(s, v)))
  }

  /** The state after a history of updates. */
  ghost function Run(s: State, vs: seq<real>): (r: State)
    requires Sane(s)
    ensures Sane(r)
  {
    if vs == [] then s else Update(Run(s, vs[..|vs| - 1]), vs[|vs| - 1])
  }

  /** Z-score and IQR verdict of a residual against those seen. */
  function Judge(st: Stats, residuals: seq<real>, residual: real): (real, bool) {
    var dev := st.stdDev(residuals);
    var z := if dev > 0.0000000001 then (residual - st.mean(residuals)) / dev else 0.0;
    var q1, q3 := st.quantile(0.25, residuals), st.quantile(0.75, residuals);
    var iqr := q3 - q1;
    (z, residual < q1 - 1.5 * iqr || residual > q3 + 1.5 * iqr)
  }

  /** The coming bucket's mean, as a distance from the overall mean. */
  function Centred(s: State): real
    requires Sane(s) && s.totalSeen > 0
  {
    s.seasonal[Bucket(s)] - s.sumAll / s.totalSeen as real
  }

  function Score(s: State, st: Stats, x: real): (real, bool)
    requires Sane(s)
  {
    if |s.residuals| < s.period * 2 then (0.0, false)
    else Judge(st, s.residuals, x - s.ewma - Centred(s))
  }

  // ---- what a score means

  /** Before two full periods nothing is scored; afterwards a value is flagged exactly when it lies outside the
      quartile fence around the expected value: trend, plus the coming bucket's distance from the overall mean. */
  lemma FlaggedIff(s: State, st: Stats, x: real)
    requires Sane(s)
    ensures |s.residuals| < 2 * s.period ==> Score(s, st, x) == (0.0, false)
    ensures |s.residuals| >= 2 * s.period ==>
              var expected := s.ewma + s.seasonal[s.totalSeen % s.period] - s.sumAll / s.totalSeen as real;
              var q1, q3 := st.quantile(0.25, s.residuals), st.quantile(0.75, s.residuals);
              Score(s, st, x).1 <==>
                x < expected + q1 - 1.5 * (q3 - q1) || x > expected + q3 + 1.5 * (q3 - q1)
  {
  }

  /** The z-score: 0 without spread; otherwise it grows by h per deviation and is 0 at the expected value plus
      the mean residual. */
  lemma ZScoreMeans(s: State, st: Stats, x: real, h: real)
    requires Sane(s) && |s.residuals| >= 2 * s.period
    ensures var d := st.stdDev(s.residuals);
            var expected := s.ewma + s.seasonal[s.totalSeen % s.period] - s.sumAll / s.totalSeen as real;
            if d > 0.0000000001 then
              && Score(s, st, x + h).0 - Score(s, st, x).0 == h / d
              && (Score(s, st, x).0 == 0.0 <==> x == expected + st.mean(s.residuals))
            else Score(s, st, x).0 == 0.0
  {
    var d, mean := st.stdDev(s.residuals), st.mean(s.residuals);
    if d > 0.0000000001 {
      var r := x - s.ewma - Centred(s);
      assert Score(s, st, x).0 == (r - mean) / d && Score(s, st, x + h).0 == (r + h - mean) / d;
      hide Score, Judge, Centred;
      QuotientAdds(r - mean, h, d);
      assert r + h - mean == (r - mean) + h;
      QuotientZero(r - mean, d);
    }
  }

  lemma QuotientAdds(p: real, h: real, d: real)
    requires d > 0.0
    ensures (p + h) / d - p / d == h / d
  {
  }

  lemma QuotientZero(p: real, d: real)
    requires d > 0.0
    ensures p / d == 0.0 <==> p == 0.0
  {
    QuotientTimes(p, d);
  }

  /** A bucket mean higher by `delta` raises what is expected at that position by as much. */
  lemma SeasonMovesScore(a: State, b: State, delta: real, st: Stats, x: real)
    requires Sane(a)
    requires b == a.(seasonal := a.seasonal[a.totalSeen % a.period := a.seasonal[a.totalSeen % a.period] + delta])
    ensures Sane(b) && Score(b, st, x + delta) == Score(a, st, x)
  {
    if |a.residuals| >= 2 * a.period {
      assert Centred(b) == Centred(a) + delta;
      assert x + delta - b.ewma - Centred(b) == x - a.ewma - Centred(a);
    }
    hide Judge, Centred;
  }

  function Slope(s: State): real { if s.totalSeen >= 2 then s.trend1 - s.trend0 else 0.0 }

  function ForecastValue(s: State, k: nat): real
    requires Sane(s)
  {
    s.ewma + Slope(s) * k as real + Season(s, s.seasonIdx + k)
  }

  /** The seasonal mean at a position of the cycle. */
  function Season(s: State, i: nat): real
    requires Sane(s)
  {
    s.seasonal[i % s.period]
  }

  function ForecastAt(s: State, st: Stats, k: nat, z: real, interval: int, now: int): ForecastPoint
    requires Sane(s)
  {
    var v, margin := ForecastValue(s, k), z * st.residualStddev(s.residuals);
    ForecastPoint(k, now + k * interval, v, v - margin, v + margin)
  }

  /** The points at horizons 1 to n; nothing before a full period has been seen. */
  function Forecast(s: State, st: Stats, n: nat, z: real, interval: int, now: int): seq<ForecastPoint>
    requires Sane(s)
  {
    if s.totalSeen < s.period then []
    else seq(n, i requires 0 <= i < n => ForecastAt(s, st, i + 1, z, interval, now))
  }

  // ---- reload

  /** What a snapshot keeps and a load rebuilds: the trend memory and the season position are reset. */
  function Reload(s: State): (r: State)
    requires s.period >= 1
    ensures Sane(s) ==> Sane(r)
  {
    s.(trend0 := s.ewma, trend1 := s.ewma, seasonIdx := s.totalSeen % s.period)
  }

  /** States that differ only in trend memory and season position, with the same latest trend. */
  ghost predicate Alike(a: State, b: State) {
    a == b.(trend0 := a.trend0, seasonIdx := a.seasonIdx)
  }

  lemma {:induction false} TrendIsEwma(s: State, vs: seq<real>)
    requires Sane(s) && s.trend1 == s.ewma
    ensures Run(s, vs).trend1 == Run(s, vs).ewma
  {
  }

  lemma AlikeStep(a: State, b: State, v: real)
    requires Sane(a) && Sane(b) && Alike(a, b)
    ensures Update(a, v) == Update(b, v)
  {
    assert NextEwma(a, v) == NextEwma(b, v) && Bucket(a) == Bucket(b);
    assert NextSeasonal(a, v) == NextSeasonal(b, v);
    assert Residual(a, v) == Residual(b, v);
    hide NextEwma, NextSeasonal, Residual;
  }

  lemma {:induction false} AlikeRun(a: State, b: State, vs: seq<real>)
    requires Sane(a) && Sane(b) && Alike(a, b)
    ensures Alike(Run(a, vs), Run(b, vs))
    ensures vs != [] ==> Run(a, vs) == Run(b, vs)
  {
    if vs != [] {
      AlikeRun(a, b, vs[..|vs| - 1]);
      AlikeStep(Run(a, vs[..|vs| - 1]), Run(b, vs[..|vs| - 1]), vs[|vs| - 1]);
    }
  }

  /** Reload is a bisimulation: after any history, a reloaded baseline scores every value as the original
      does, now and after any further updates, and one further update makes the two states equal. */
  lemma ReloadBisimulation(period: nat, history: seq<real>, further: seq<real>, st: Stats, x: real)
    requires period >= 1
    ensures var b := Run(Init(period), history);
            && Score(Run(Reload(b), further), st, x) == Score(Run(b, further), st, x)
            && (further != [] ==> Run(Reload(b), further) == Run(b, further))
  {
    var b := Run(Init(period), history);
    TrendIsEwma(Init(period), history);
    AlikeRun(Reload(b), b, further);
  }

  /** ... so forecasts agree at every horizon once one update has followed the reload. */
  lemma ReloadForecasts(period: nat, history: seq<real>, further: seq<real>, st: Stats,
                        n: nat, z: real, interval: int, now: int)
    requires period >= 1 && further != []
    ensures var b := Run(Init(period), history);
            Forecast(Run(Reload(b), further), st, n, z, interval, now)
            == Forecast(Run(b, further), st, n, z, interval, now)
  {
    ReloadBisimulation(period, history, further, st, 0.0);
  }

  /** What happens to a baseline over many processes. */
  datatype Event = Value(value: real) | Restart

  ghost function RunEvents(s: State, events: seq<Event>): (r: State)
    requires Sane(s)
    ensures Sane(r)
  {
    if events == [] then s
    else
      var p := RunEvents(s, events[..|events| - 1]);
      match events[|events| - 1]
      case Value(v) => Update(p, v)
      case Restart => Reload(p)
  }

  ghost function ValuesOf(events: seq<Event>): seq<real> {
    if events == [] then []
    else
      var rest := ValuesOf(events[..|events| - 1]);
      if events[|events| - 1].Value? then rest + [events[|events| - 1].value] else rest
  }

  /** Any number of restarts, anywhere between the updates: every score is that of the updates alone, and the
      state itself is, once an update has followed the last restart. */
  lemma {:induction false} RestartsDoNotShow(period: nat, events: seq<Event>, st: Stats, x: real)
    requires period >= 1
    ensures var a, b := RunEvents(Init(period), events), Run(Init(period), ValuesOf(events));
            && Alike(a, b) && Score(a, st, x) == Score(b, st, x)
            && (events != [] && events[|events| - 1].Value? ==> a == b)
  {
    if events != [] {
      var init := events[..|events| - 1];
      RestartsDoNotShow(period, init, st, x);
      var a, b := RunEvents(Init(period), init), Run(Init(period), ValuesOf(init));
      match events[|events| - 1]
      case Value(v) =>
        AlikeStep(a, b, v);
        assert (ValuesOf(init) + [v])[..|ValuesOf(init)|] == ValuesOf(init);
      case Restart => TrendIsEwma(Init(period), ValuesOf(init));
    }
  }

  lemma {:induction false} SeasonIdxIs(period: nat, history: seq<real>)
    requires period >= 1 && history != []
    ensures Run(Init(period), history).totalSeen == |history|
    ensures Run(Init(period), history).period == period
    ensures Run(Init(period), history).seasonIdx == (|history| - 1) % period
  {
    var init := history[..|history| - 1];
    if init == [] {
      assert Run(Init(period), init) == Init(period);
    } else {
      SeasonIdxIs(period, init);
    }
  }

  ghost predicate SameForecasts(b: State)
    requires Sane(b)
  {
    forall k: nat :: k >= 1 ==> ForecastValue(Reload(b), k) == ForecastValue(b, k)
  }

  ghost predicate FlatSeason(b: State)
    requires Sane(b)
  {
    forall i, j :: 0 <= i < b.period && 0 <= j < b.period ==> b.seasonal[i] == b.seasonal[j]
  }

  /** Straight after a reload the forecasts agree at every horizon exactly when the trend was flat and
      the seasonal means are all equal: the reload forgets the slope and moves the season on by one. */
  lemma ForecastAfterReloadIff(period: nat, history: seq<real>)
    requires period >= 1 && |history| >= period
    ensures var b := Run(Init(period), history);
            SameForecasts(b) <==> Slope(b) == 0.0 && FlatSeason(b)
  {
    hide Run, Init, SameForecasts, FlatSeason, Slope, Sane;
    SeasonIdxIs(period, history);
    SameForecastsIff(Run(Init(period), history), |history|);
  }

  /** Two updates are enough for the two to differ: the slope of 0, 1 is forgotten. */
  lemma ReloadChangesForecast()
    ensures !SameForecasts(Run(Init(1), [0.0, 1.0]))
  {
    var s0 := Init(1);
    var s1 := Update(s0, 0.0);
    var s2 := Update(s1, 1.0);
    assert [0.0, 1.0][..1] == [0.0] && [0.0][..0] == [];
    assert Run(s0, []) == s0 && Run(s0, [0.0]) == s1 && Run(s0, [0.0, 1.0]) == s2;
    assert s2.trend0 == 0.0 && s2.trend1 == s2.ewmaAlpha > 0.0;
    ForecastAfterReloadIff(1, [0.0, 1.0]);
  }

  ghost predicate SamePoints(b: State, st: Stats, z: real, interval: int, now: int)
    requires Sane(b)
  {
    forall n: nat :: Forecast(Reload(b), st, n, z, interval, now) == Forecast(b, st, n, z, interval, now)
  }

  lemma PointsGiveValues(b: State, st: Stats, z: real, interval: int, now: int)
    requires Sane(b) && b.totalSeen >= b.period && SamePoints(b, st, z, interval, now)
    ensures SameForecasts(b)
  {
    hide ForecastValue;
    forall k: nat | k >= 1 ensures ForecastValue(Reload(b), k) == ForecastValue(b, k) {
      var p, q := Forecast(Reload(b), st, k, z, interval, now), Forecast(b, st, k, z, interval, now);
      assert p[k - 1] == q[k - 1];
    }
  }

  lemma ValuesGivePoints(b: State, st: Stats, z: real, interval: int, now: int)
    requires Sane(b) && b.totalSeen >= b.period && SameForecasts(b)
    ensures SamePoints(b, st, z, interval, now)
  {
    hide ForecastValue;
    forall n: nat ensures Forecast(Reload(b), st, n, z, interval, now) == Forecast(b, st, n, z, interval, now) {
      var p, q := Forecast(Reload(b), st, n, z, interval, now), Forecast(b, st, n, z, interval, now);
      forall i | 0 <= i < n ensures p[i] == q[i] {
        assert ForecastValue(Reload(b), i + 1) == ForecastValue(b, i + 1);
      }
    }
  }

  /** The same of whole forecasts, which are empty on both sides before a full period has been seen. */
  lemma WholeForecastAfterReloadIff(period: nat, history: seq<real>, st: Stats, z: real, interval: int, now: int)
    requires period >= 1
    ensures var b := Run(Init(period), history);
            SamePoints(b, st, z, interval, now) <==> |history| < period || (Slope(b) == 0.0 && FlatSeason(b))
  {
    var b := Run(Init(period), history);
    if history != [] { SeasonIdxIs(period, history); }
    if |history| >= period {
      hide *;
      ForecastAfterReloadIff(period, history);
      if SamePoints(b, st, z, interval, now) { PointsGiveValues(b, st, z, interval, now); }
      if SameForecasts(b) { ValuesGivePoints(b, st, z, interval, now); }
    } else {
      hide Run, Init;
      NotWarm(b, st, z, interval, now);
    }
  }

  lemma NotWarm(b: State, st: Stats, z: real, interval: int, now: int)
    requires Sane(b) && b.totalSeen < b.period
    ensures SamePoints(b, st, z, interval, now)
  {
    hide ForecastAt;
  }

  lemma SameForecastsIff(b: State, n: nat)
    requires Sane(b) && n >= 1 && b.totalSeen == n && b.seasonIdx == Pos(b, n - 1)
    ensures SameForecasts(b) <==> Slope(b) == 0.0 && FlatSeason(b)
  {
    hide SameForecasts, FlatSeason, Slope, Pos;
    if SameForecasts(b) { SameIsFlat(b, n); }
    if Slope(b) == 0.0 && FlatSeason(b) { FlatIsSame(b, n); }
  }

  lemma SameIsFlat(b: State, n: nat)
    requires Sane(b) && n >= 1 && b.totalSeen == n && b.seasonIdx == Pos(b, n - 1) && SameForecasts(b)
    ensures Slope(b) == 0.0 && FlatSeason(b)
  {
    hide Slope, Pos, Rotated, ForecastValue, Reload;
    forall k: nat | k >= 1 ensures Rotated(b, n, k) == Slope(b) * k as real {
      assert ForecastValue(Reload(b), k) == ForecastValue(b, k);
      RotatedIs(b, n, k);
    }
    hide SameForecasts;
    RotatedPeriodic(b, n);
    FlatSlope(Slope(b), b.period);
    forall k: nat | k >= 1 ensures Rotated(b, n, k) == 0.0 {
      assert Rotated(b, n, k) == Slope(b) * k as real;
      ZeroFactor(k as real);
    }
    SeasonFlat(b, n);
  }

  lemma FlatIsSame(b: State, n: nat)
    requires Sane(b) && n >= 1 && b.totalSeen == n && b.seasonIdx == Pos(b, n - 1)
    requires Slope(b) == 0.0 && FlatSeason(b)
    ensures SameForecasts(b)
  {
    hide Slope, Pos, FlatSeason, ForecastValue, Reload;
    forall k: nat | k >= 1 ensures ForecastValue(Reload(b), k) == ForecastValue(b, k) { FlatForecast(b, n, k); }
  }

  lemma FlatForecast(b: State, n: nat, k: nat)
    requires Sane(b) && n >= 1 && b.totalSeen == n && b.seasonIdx == Pos(b, n - 1)
    requires Slope(b) == 0.0 && FlatSeason(b)
    ensures ForecastValue(Reload(b), k) == ForecastValue(b, k)
  {
    hide Pos, Slope, ForecastValue, Reload;
    assert Season(b, Pos(b, n) + k) == Season(b, Pos(b, n - 1) + k);
    hide Season, FlatSeason, Sane;
    ReloadValue(b, n, k);
    PlainValue(b, n, k);
    ZeroFactor(k as real);
  }

  /** The seasonal means the two forecasts use at horizon k, subtracted. */
  /** The position of the cycle that the n-th value falls on. */
  ghost function Pos(b: State, n: nat): nat
    requires b.period >= 1
  {
    n % b.period
  }

  ghost function Rotated(b: State, n: nat, k: nat): real
    requires Sane(b) && n >= 1
  {
    Season(b, Pos(b, n) + k) - Season(b, Pos(b, n - 1) + k)
  }

  lemma ReloadValue(b: State, n: nat, k: nat)
    requires Sane(b) && n >= 1 && b.totalSeen == n
    ensures ForecastValue(Reload(b), k) == b.ewma + Season(b, Pos(b, n) + k)
  {
    assert Slope(Reload(b)) == 0.0;
    hide Slope;
    ZeroFactor(k as real);
  }

  lemma RotatedIs(b: State, n: nat, k: nat)
    requires Sane(b) && n >= 1 && b.totalSeen == n && b.seasonIdx == Pos(b, n - 1)
    requires ForecastValue(Reload(b), k) == ForecastValue(b, k)
    ensures Rotated(b, n, k) == Slope(b) * k as real
  {
    hide ForecastValue, Season, Slope, Reload, Sane;
    ReloadValue(b, n, k);
    PlainValue(b, n, k);
  }

  lemma PlainValue(b: State, n: nat, k: nat)
    requires Sane(b) && n >= 1 && b.seasonIdx == Pos(b, n - 1)
    ensures ForecastValue(b, k) == b.ewma + Slope(b) * k as real + Season(b, Pos(b, n - 1) + k)
  {
  }

  lemma ModAdd(a: nat, k: nat, p: nat)
    requires p >= 1
    ensures (a % p + k) % p == (a + k) % p
  {
    var q := a / p;
    assert a + k == q * p + (a % p + k);
    ModMul(q, a % p + k, p);
  }

  lemma ModMul(q: nat, r: nat, p: nat)
    requires p >= 1
    ensures (q * p + r) % p == r % p
  {
    if q > 0 {
      ModMul(q - 1, r, p);
      var t := (q - 1) * p + r;
      assert q * p + r == t + p;
      ModPlus(t, p);
    }
  }

  lemma ModPlus(t: nat, p: nat)
    requires p >= 1
    ensures (t + p) % p == t % p
  {
    var q, r := t / p, t % p;
    assert t + p == (q + 1) * p + r;
    assert (t + p) / p == q + 1 by { DivUnique(t + p, p, q + 1, r); }
  }

  lemma DivUnique(t: nat, p: nat, q: nat, r: nat)
    requires p >= 1 && r < p && t == q * p + r
    ensures t / p == q && t % p == r
  {
    var q', r' := t / p, t % p;
    assert t == q' * p + r';
    assert (q - q') * p == q * p - q' * p;
    if q' < q { AtLeastOnce(q - q', p); }
    if q' > q { AtLeastOnce(q' - q, p); }
  }

  lemma AtLeastOnce(d: nat, p: nat)
    requires d >= 1
    ensures d * p >= p && p * d >= p
  {
    assert d * p == (d - 1) * p + p;
  }

  lemma RotatedPeriodic(b: State, n: nat)
    requires Sane(b) && n >= 1
    ensures Rotated(b, n, 1) == Rotated(b, n, 1 + b.period)
  {
    hide Season, Pos;
    var x, y := Pos(b, n) + 1, Pos(b, n - 1) + 1;
    SeasonPeriodic(b, x);
    SeasonPeriodic(b, y);
    assert Pos(b, n) + (1 + b.period) == x + b.period && Pos(b, n - 1) + (1 + b.period) == y + b.period;
  }

  lemma SeasonPeriodic(b: State, i: nat)
    requires Sane(b)
    ensures Season(b, i + b.period) == Season(b, i)
  {
    ModPlus(i, b.period);
  }

  lemma FlatSlope(slope: real, p: nat)
    requires p >= 1 && slope * 1 as real == slope * (1 + p) as real
    ensures slope == 0.0
  {
    var d := p as real;
    assert (1 + p) as real == 1.0 + d;
    assert slope * (1.0 + d) == slope + slope * d;
    assert slope * d == 0.0;
  }

  /** Rotations that change nothing leave neighbouring means equal, hence all means. */
  lemma SeasonFlat(b: State, n: nat)
    requires Sane(b) && n >= 1 && forall k: nat :: k >= 1 ==> Rotated(b, n, k) == 0.0
    ensures forall i, j :: 0 <= i < b.period && 0 <= j < b.period ==> b.seasonal[i] == b.seasonal[j]
  {
    forall i | 0 <= i < b.period ensures b.seasonal[i] == b.seasonal[0] { SeasonChain(b, n, i); }
  }

  lemma {:induction false} SeasonChain(b: State, n: nat, i: nat)
    requires Sane(b) && n >= 1 && i < b.period && forall k: nat :: k >= 1 ==> Rotated(b, n, k) == 0.0
    ensures b.seasonal[i] == b.seasonal[0]
  {
    if i > 0 {
      SeasonChain(b, n, i - 1);
      hide Rotated;
      var k := HorizonFor(n, b.period, i);
      SeasonPair(b, n, k, i);
    }
  }

  /** A horizon at which the two forecasts fall on neighbouring positions. */
  lemma HorizonFor(n: nat, p: nat, i: nat) returns (k: nat)
    requires n >= 1 && 0 < i < p
    ensures k >= 1 && (n % p + k) % p == i && ((n - 1) % p + k) % p == i - 1
  {
    AtLeastOnce(p, n);
    k := n * p - n + i;
    WrapsTo(n, k, p, n, i);
    WrapsTo(n - 1, k, p, n, i - 1);
  }

  lemma SeasonPair(b: State, n: nat, k: nat, i: nat)
    requires Sane(b) && n >= 1 && 0 < i < b.period && Rotated(b, n, k) == 0.0
    requires (n % b.period + k) % b.period == i && ((n - 1) % b.period + k) % b.period == i - 1
    ensures b.seasonal[i] == b.seasonal[i - 1]
  {
    var x, y := Pos(b, n) + k, Pos(b, n - 1) + k;
    assert x % b.period == i && y % b.period == i - 1;
    hide Season, Pos;
    SeasonAt(b, x, i);
    SeasonAt(b, y, i - 1);
  }

  lemma SeasonAt(b: State, t: nat, i: nat)
    requires Sane(b) && i < b.period && t % b.period == i
    ensures Season(b, t) == b.seasonal[i]
  {
  }

  lemma WrapsTo(a: nat, k: nat, p: nat, q: nat, i: nat)
    requires p >= 1 && i < p && a + k == q * p + i
    ensures (a % p + k) % p == i
  {
    ModAdd(a, k, p);
    DivUnique(a + k, p, q, i);
  }
}
