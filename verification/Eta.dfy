/** `ETACalculator.computeOne` (internal/forecast/eta.go): remaining time of a tracked operation. */
module Eta {
  import opened RealFacts
  import opened Basics
  import opened Tracker
  import opened WeightedRate

  datatype Confidence = Estimating | Stalled | Medium | High

  datatype OperationETA = OperationETA(percentDone: real, sampleCount: nat, elapsedSec: real, etaSec: real,
                                       etaAt: Option<int>, rateCurrent: real, confidence: Confidence)

  function ClassifyConfidence(sampleCount: nat): Confidence { if sampleCount >= 8 then High else Medium }

  ghost function Timestamps(samples: seq<ProgressSample>): (ts: seq<int>)
    ensures |ts| == |samples|
  {
    seq(|samples|, i requires 0 <= i < |samples| => samples[i].timestamp)
  }

  ghost function Work(samples: seq<ProgressSample>): (vs: seq<real>)
    ensures |vs| == |samples|
  {
    seq(|samples|, i requires 0 <= i < |samples| => samples[i].workDone)
  }

  /** The work left: from the total if it is known, otherwise estimated from the percentage. */
  function Remaining(s: ProgressSample): real {
    if s.workTotal - s.workDone <= 0.0 && 0.0 < s.pctDone < 100.0
    then s.workDone * (100.0 - s.pctDone) / s.pctDone
    else s.workTotal - s.workDone
  }

  /** A time `sec` seconds after `now`; the duration is cut to whole nanoseconds toward zero. */
  function After(now: int, sec: real): int {
    var nanos := sec * NANOS;
    now + if nanos >= 0.0 then nanos.Floor else -((-nanos).Floor)
  }

  ghost predicate IsEta(op: TrackedOperation, cfg: WMAConfig, minSamples: int, sqrt: real -> real, now: int,
                        e: OperationETA) {
    var n := |op.samples|;
    && e.sampleCount == n
    && e.percentDone == (if n > 0 then op.samples[n - 1].pctDone else 0.0)
    && e.elapsedSec == Seconds(op.startedAt, now)
    && (if n < minSamples || n < 2 then
          e.etaSec == -1.0 && e.etaAt == None && e.rateCurrent == 0.0 && e.confidence == Estimating
        else
          exists w :: IsWma(cfg, Timestamps(op.samples), Work(op.samples), sqrt, w) && FromRate(op, now, e, w))
  }

  ghost predicate FromRate(op: TrackedOperation, now: int, e: OperationETA, w: WMAResult)
    requires op.samples != []
  {
    && e.rateCurrent == w.weightedRate
    && (if w.weightedRate <= 0.0 then e.etaSec == -1.0 && e.etaAt == None && e.confidence == Stalled
        else
          && e.etaSec * w.weightedRate == Remaining(op.samples[|op.samples| - 1])
          && e.etaAt == Some(After(now, e.etaSec))
          && e.confidence == ClassifyConfidence(|op.samples|))
  }

  method ComputeOne(op: TrackedOperation, cfg: WMAConfig, minSamples: int, sqrt: real -> real, now: int)
    returns (e: OperationETA)
    ensures IsEta(op, cfg, minSamples, sqrt, now, e)
  {
    var n := |op.samples|;
    var pctDone := 0.0;
    if n > 0 {
      pctDone := op.samples[n - 1].pctDone;
    }
    e := OperationETA(pctDone, n, Seconds(op.startedAt, now), -1.0, None, 0.0, Estimating);
    if n < minSamples {
      return;
    }
    var ts, vs := Extract(op.samples);
    var o := WeightedMovingAverage(cfg, ts, vs, sqrt);
    if !o.Rate? {
      return;
    }
    SampleCountIs(op, cfg, sqrt, o.result);
    hide IsWma;
    e := Estimate(op, o.result, e, now);
  }

  method Extract(samples: seq<ProgressSample>) returns (ts: seq<int>, vs: seq<real>)
    ensures ts == Timestamps(samples) && vs == Work(samples)
  {
    ts, vs := [], [];
    for i := 0 to |samples|
      invariant ts == Timestamps(samples)[..i] && vs == Work(samples)[..i]
    {
      ts, vs := ts + [samples[i].timestamp], vs + [samples[i].workDone];
    }
  }

  /** Steps 4 and 5: stall detection, then the remaining work over the rate. */
  method Estimate(op: TrackedOperation, w: WMAResult, base: OperationETA, now: int) returns (e: OperationETA)
    requires op.samples != [] && w.sampleCount == |op.samples|
    requires base.percentDone == op.samples[|op.samples| - 1].pctDone && base.etaSec == -1.0 && base.etaAt == None
    ensures FromRate(op, now, e, w)
    ensures e.sampleCount == base.sampleCount && e.percentDone == base.percentDone && e.elapsedSec == base.elapsedSec
  {
    var rate := w.weightedRate;
    if rate <= 0.0 {
      return base.(confidence := Stalled, rateCurrent := rate);
    }
    var last := op.samples[|op.samples| - 1];
    var remaining := last.workTotal - last.workDone;
    if remaining <= 0.0 && base.percentDone < 100.0 {
      if base.percentDone > 0.0 {
        remaining := last.workDone * (100.0 - base.percentDone) / base.percentDone;
      }
    }
    assert remaining == Remaining(last);
    hide Remaining, After;
    var etaSec := remaining / rate;
    QuotientTimes(remaining, rate);
    e := base.(etaSec := etaSec, etaAt := Some(After(now, etaSec)), rateCurrent := rate,
               confidence := ClassifyConfidence(w.sampleCount));
  }

  lemma SampleCountIs(op: TrackedOperation, cfg: WMAConfig, sqrt: real -> real, w: WMAResult)
    requires IsWma(cfg, Timestamps(op.samples), Work(op.samples), sqrt, w)
    ensures w.sampleCount == |op.samples|
  {
  }

  /** Samples as the tracker stores them, of work that grows at `rate` toward `total`. */
  ghost predicate ConstantWork(samples: seq<ProgressSample>, rate: real, total: real) {
    && samples != [] && rate > 0.0 && total > 0.0
    && (forall i :: 1 <= i < |samples| ==> Steady(Timestamps(samples), Work(samples), rate, i))
    && (var last := samples[|samples| - 1];
        last.workTotal == 0.0 && 0.0 < last.pctDone < 100.0 && last.pctDone * total == 100.0 * last.workDone)
  }

  /** Time passes in some interval that the window keeps. */
  ghost predicate TimePasses(samples: seq<ProgressSample>, cfg: WMAConfig) {
    exists i :: FirstInterval(cfg, |samples|) <= i < |samples| && ElapsedSec(Timestamps(samples), i) > 0.0
  }

  /** For constant-rate work the estimate is exact, whatever the decay and the window. */
  lemma EtaExact(op: TrackedOperation, cfg: WMAConfig, minSamples: int, sqrt: real -> real, now: int,
                 e: OperationETA, rate: real, total: real)
    requires IsEta(op, cfg, minSamples, sqrt, now, e) && |op.samples| >= minSamples && |op.samples| >= 2
    requires ConstantWork(op.samples, rate, total) && TimePasses(op.samples, cfg)
    ensures e.rateCurrent == rate
    ensures e.etaSec * rate == total - op.samples[|op.samples| - 1].workDone
  {
    hide ConstantWork, TimePasses, IsWma, Remaining, Seconds;
    var w :| IsWma(cfg, Timestamps(op.samples), Work(op.samples), sqrt, w) && FromRate(op, now, e, w);
    ConstantRate(op.samples, cfg, sqrt, w, rate, total);
    ConstantRemaining(op.samples, rate, total);
  }

  lemma ConstantRate(samples: seq<ProgressSample>, cfg: WMAConfig, sqrt: real -> real, w: WMAResult, rate: real,
                     total: real)
    requires ConstantWork(samples, rate, total) && TimePasses(samples, cfg)
    requires IsWma(cfg, Timestamps(samples), Work(samples), sqrt, w)
    ensures w.weightedRate == rate && rate > 0.0
  {
    hide IsWma, Steady, Timestamps, Work;
    WmaOfConstant(cfg, Timestamps(samples), Work(samples), sqrt, w, rate);
  }

  lemma ConstantRemaining(samples: seq<ProgressSample>, rate: real, total: real)
    requires ConstantWork(samples, rate, total)
    ensures samples != [] && Remaining(samples[|samples| - 1]) == total - samples[|samples| - 1].workDone
  {
    hide Remaining, Steady;
    RemainingIs(samples[|samples| - 1], total);
  }

  lemma WmaOfConstant(cfg: WMAConfig, ts: seq<int>, vs: seq<real>, sqrt: real -> real, w: WMAResult, rate: real)
    requires |ts| == |vs| && IsWma(cfg, ts, vs, sqrt, w)
    requires forall i :: 1 <= i < |ts| ==> Steady(ts, vs, rate, i)
    requires exists i :: FirstInterval(cfg, |ts|) <= i < |ts| && ElapsedSec(ts, i) > 0.0
    ensures w.weightedRate == rate
  {
    var lo := FirstInterval(cfg, |ts|);
    ConstantRates(ts, vs, lo, |ts|, rate);
    AverageWithin(Decay(cfg), Rates(ts, vs, lo, |ts|), sqrt, w, rate, rate);
  }

  lemma RemainingIs(s: ProgressSample, total: real)
    requires s.workTotal == 0.0 && 0.0 < s.pctDone < 100.0 && total > 0.0 && s.pctDone * total == 100.0 * s.workDone
    ensures Remaining(s) == total - s.workDone
  {
    var p, d := s.pctDone, s.workDone;
    var product := p * total;
    PositiveProduct(p, total, product);
    assert (total - d) * p == d * (100.0 - p);
    QuotientOf(d * (100.0 - p), total - d, p);
  }

  /** More work is announced than done, or a percentage strictly inside its range stands for it. */
  ghost predicate WorkLeft(s: ProgressSample) {
    || s.workTotal > s.workDone
    || (if 0.0 < s.pctDone < 100.0 then s.workDone >= 0.0 else s.workTotal == s.workDone)
  }

  /** An estimate is not negative exactly then. */
  lemma EtaNonNegativeIff(op: TrackedOperation, cfg: WMAConfig, minSamples: int, sqrt: real -> real, now: int,
                          e: OperationETA)
    requires IsEta(op, cfg, minSamples, sqrt, now, e) && |op.samples| >= minSamples && |op.samples| >= 2
    requires e.rateCurrent > 0.0
    ensures e.etaSec >= 0.0 <==> WorkLeft(op.samples[|op.samples| - 1])
  {
    var last := op.samples[|op.samples| - 1];
    RemainingSign(last);
    hide Remaining, WorkLeft, IsWma, Seconds;
    SameSign(e.etaSec, e.rateCurrent, Remaining(last));
  }

  lemma SameSign(x: real, r: real, p: real)
    requires r > 0.0 && x * r == p
    ensures x >= 0.0 <==> p >= 0.0
  {
    if x < 0.0 { PositiveProduct(-x, r, -p); }
  }

  lemma RemainingSign(s: ProgressSample)
    ensures Remaining(s) >= 0.0 <==> WorkLeft(s)
  {
    if s.workTotal - s.workDone <= 0.0 && 0.0 < s.pctDone < 100.0 {
      var p, d := s.pctDone, s.workDone;
      var product := d * (100.0 - p);
      SameSign(d, 100.0 - p, product);
      QuotientTimes(product, p);
      SameSign(product / p, p, product);
    }
  }

  /** What is shown beside the estimate: the time since the start, the moment the work should end, cut to the
      nanosecond, and high confidence from eight samples on. */
  lemma EtaShows(op: TrackedOperation, cfg: WMAConfig, minSamples: int, sqrt: real -> real, now: int, e: OperationETA)
    requires IsEta(op, cfg, minSamples, sqrt, now, e)
    ensures e.elapsedSec * 1000000000.0 == (now - op.startedAt) as real
    ensures e.etaAt.Some? <==> |op.samples| >= minSamples && |op.samples| >= 2 && e.rateCurrent > 0.0
    ensures e.etaAt.Some? ==>
              var nanos := e.etaSec * 1000000000.0;
              && (nanos >= 0.0 ==> e.etaAt.value >= now && nanos - 1.0 < (e.etaAt.value - now) as real <= nanos)
              && (nanos < 0.0 ==> e.etaAt.value <= now && nanos <= (e.etaAt.value - now) as real < nanos + 1.0)
              && (e.confidence.High? <==> |op.samples| >= 8) && (e.confidence.Medium? <==> |op.samples| < 8)
  {
    hide IsWma, Remaining;
    if e.etaAt.Some? { AfterMeans(now, e.etaSec); }
    hide After;
  }

  lemma AfterMeans(now: int, sec: real)
    ensures var nanos, at := sec * 1000000000.0, After(now, sec);
            && (nanos >= 0.0 ==> at >= now && nanos - 1.0 < (at - now) as real <= nanos)
            && (nanos < 0.0 ==> at <= now && nanos <= (at - now) as real < nanos + 1.0)
  {
  }
}
