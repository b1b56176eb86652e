/** The records of finished maintenance operations (internal/forecast/tracker.go), said in terms of the polls. */
module TrackerRecords {
  import opened Basics
  import opened RealFacts
  import opened Tracker
  import opened TrackerTrace

  /** The ticks from `s` on that observed `k`. */
  ghost function Sightings(trace: seq<Tick>, k: string, s: nat): (r: seq<nat>)
    ensures forall i :: 0 <= i < |r| ==> s <= r[i] < |trace| && Obs(trace, k, r[i])
  {
    if |trace| <= s then []
    else
      var n, rest := |trace| - 1, Sightings(trace[..|trace| - 1], k, s);
      assert forall i :: 0 <= i < |rest| ==> Obs(trace[..n], k, rest[i]) && trace[..n][rest[i]] == trace[rest[i]];
      if k in trace[n].current then rest + [n] else rest
  }

  /** Every sighting of `k` from `s` on is listed, once and in order. */
  lemma {:induction false} SightingsAll(trace: seq<Tick>, k: string, s: nat)
    ensures forall i, j :: 0 <= i < j < |Sightings(trace, k, s)| ==>
              Sightings(trace, k, s)[i] < Sightings(trace, k, s)[j]
    ensures forall n :: s <= n < |trace| && k in trace[n].current ==> n in Sightings(trace, k, s)
  {
    if |trace| > s {
      var init := trace[..|trace| - 1];
      SightingsAll(init, k, s);
      forall n | s <= n < |trace| && k in trace[n].current ensures n in Sightings(trace, k, s) {
        if n < |init| { assert init[n] == trace[n]; }
      }
    }
  }

  /** What is kept of each sighting: when it was, the work done and the percentage, and no total. */
  lemma {:induction false} ObservationIs(trace: seq<Tick>, k: string, s: nat, i: nat)
    requires i < |Sightings(trace, k, s)|
    ensures |Observations(trace, k, s)| == |Sightings(trace, k, s)|
    ensures var o, c := Observations(trace, k, s)[i], trace[Sightings(trace, k, s)[i]].current[k];
            && o.timestamp == c.timestamp && o.workDone == c.workDone && o.pctDone == c.pctDone && o.workTotal == 0.0
  {
    SameLength(trace, k, s);
    var init := trace[..|trace| - 1];
    SameLength(init, k, s);
    if i < |Sightings(init, k, s)| {
      ObservationIs(init, k, s, i);
      var n := Sightings(init, k, s)[i];
      assert init[n] == trace[n];
    }
  }

  lemma {:induction false} SameLength(trace: seq<Tick>, k: string, s: nat)
    ensures |Observations(trace, k, s)| == |Sightings(trace, k, s)|
  {
    if |trace| > s { SameLength(trace[..|trace| - 1], k, s); }
  }

  /** The last sighting is the last tick that observed the key. */
  lemma LastSighting(trace: seq<Tick>, k: string, s: nat, l: nat)
    requires s <= l < |trace| && k in trace[l].current && forall n :: l < n < |trace| ==> k !in trace[n].current
    ensures var r := Sightings(trace, k, s); r != [] && r[|r| - 1] == l
  {
    SightingsAll(trace, k, s);
    var r := Sightings(trace, k, s);
    var i :| 0 <= i < |r| && r[i] == l;
    assert k in trace[r[|r| - 1]].current;
  }

  /** The oldest sighting still in the sample buffer. */
  ghost function OldestKept(sightings: seq<nat>, window: nat): nat
    requires sightings != [] && window >= 1
  {
    sightings[if |sightings| <= window then 0 else |sightings| - window]
  }

  /** The record of an episode whose first and last observations are at `s` and `l`: who it was, how long it was
      seen, how far it came, and the work done per second between the oldest and the latest sample kept. */
  ghost predicate Records(rec: MaintenanceOperation, trace: seq<Tick>, k: string, window: nat, s: nat, l: nat)
    requires window >= 1 && s <= l < |trace| && k in trace[s].current && k in trace[l].current
    requires Sightings(trace, k, s) != []
  {
    var first, last := trace[s].current[k], trace[l].current[k];
    var oldest := trace[OldestKept(Sightings(trace, k, s), window)].current[k];
    && rec.instanceId == first.instanceId && rec.operation == first.opType
    && rec.database == first.database && rec.table == first.table && rec.startedAt == first.timestamp
    && rec.durationSec * 1000000000.0 == (last.timestamp - first.timestamp) as real
    && rec.finalPct == last.pctDone
    && (if rec.durationSec > 0.0 then rec.avgRatePerSec * rec.durationSec == last.workDone - oldest.workDone
        else rec.avgRatePerSec == 0.0)
  }

  ghost predicate LastSeen(trace: seq<Tick>, k: string, l: int) {
    Obs(trace, k, l) && (l == |trace| - 1 || (l == |trace| - 2 && !Obs(trace, k, |trace| - 1)))
  }

  lemma {:induction false} SamplesOf(op: TrackedOperation, trace: seq<Tick>, k: string, window: nat, s: nat, l: nat)
    requires window >= 1 && Tracks(op, trace, k, window, s) && LastSeen(trace, k, l)
    ensures s <= l && Sightings(trace, k, s) != [] && op.samples != []
    ensures var first, last := op.samples[0], op.samples[|op.samples| - 1];
            && first.workDone == trace[OldestKept(Sightings(trace, k, s), window)].current[k].workDone
            && last.workDone == trace[l].current[k].workDone && last.pctDone == trace[l].current[k].pctDone
    ensures op.lastSeenAt == trace[l].current[k].timestamp
  {
    assert s <= l;
    forall n | l < n < |trace| ensures k !in trace[n].current { assert Obs(trace, k, n) <==> k in trace[n].current; }
    LastSighting(trace, k, s, l);
    var r := Sightings(trace, k, s);
    hide Sightings, Observations, StartsAt, Unbroken;
    ObservationIs(trace, k, s, |r| - 1);
    ObservationIs(trace, k, s, if |r| <= window then 0 else |r| - window);
  }

  /** A record against the operation it is made of. */
  lemma RecordFields(op: TrackedOperation, outcome: string, now: int)
    requires op.samples != []
    ensures var r, last := FinalRecord(op, outcome, now), op.samples[|op.samples| - 1];
            && r.instanceId == op.instanceId && r.operation == op.operation && r.database == op.database
            && r.table == op.table && r.startedAt == op.startedAt && r.completedAt == now && r.outcome == outcome
            && r.durationSec * 1000000000.0 == (op.lastSeenAt - op.startedAt) as real && r.finalPct == last.pctDone
            && (if r.durationSec > 0.0 then r.avgRatePerSec * r.durationSec == last.workDone - op.samples[0].workDone
                else r.avgRatePerSec == 0.0)
  {
    var d := Seconds(op.startedAt, op.lastSeenAt);
    SecondsTimes(op.startedAt, op.lastSeenAt);
    hide Seconds;
    if d > 0.0 { QuotientTimes(op.samples[|op.samples| - 1].workDone - op.samples[0].workDone, d); }
  }

  lemma RecordOf(op: TrackedOperation, outcome: string, now: int, trace: seq<Tick>, k: string, window: nat, s: nat,
                 l: nat)
    requires window >= 1 && Tracks(op, trace, k, window, s) && LastSeen(trace, k, l)
    ensures s <= l && Sightings(trace, k, s) != []
    ensures Records(FinalRecord(op, outcome, now), trace, k, window, s, l)
    ensures FinalRecord(op, outcome, now).outcome == outcome && FinalRecord(op, outcome, now).completedAt == now
  {
    hide Sightings, Observations, OldestKept, FinalRecord, LastN;
    SamplesOf(op, trace, k, window, s, l);
    RecordFields(op, outcome, now);
  }

  lemma SecondsTimes(from: int, to: int)
    ensures Seconds(from, to) * 1000000000.0 == (to - from) as real
  {
  }

  /** What the outcome of a finished operation says, in terms of its first and last observation. */
  ghost predicate OutcomeIs(outcome: string, first: CurrentOp, last: CurrentOp) {
    outcome == if last.pctDone >= 99.0 then "completed"
               else if last.timestamp - first.timestamp > 2_000_000_000 then "disappeared"
               else "unknown"
  }

  lemma OutcomeMeans(op: TrackedOperation, trace: seq<Tick>, k: string, window: nat, s: nat, l: nat)
    requires window >= 1 && Tracks(op, trace, k, window, s) && LastSeen(trace, k, l)
    ensures OutcomeIs(ClassifyOutcome(op), trace[s].current[k], trace[l].current[k])
  {
    hide Sightings, Observations, OldestKept, LastN;
    SamplesOf(op, trace, k, window, s, l);
    SecondsTimes(op.startedAt, op.lastSeenAt);
    hide Seconds;
  }

  /** `f` finalizes the episode of `k` from `s` to the last but one poll. */
  ghost predicate Ends(f: Final, trace: seq<Tick>, t: Tick, k: string, window: nat, s: nat)
    requires window >= 1
  {
    && s <= |trace| - 2 && StartsAt(trace, k, s) && Unbroken(trace, k, s) && Sightings(trace, k, s) != []
    && k in trace[|trace| - 2].current
    && Records(f.record, trace, k, window, s, |trace| - 2)
    && OutcomeIs(f.record.outcome, trace[s].current[k], trace[|trace| - 2].current[k])
    && f.record.completedAt == t.now(k) && f.stored == (k !in t.lost)
  }

  /** The record that ends an episode: after the second miss, with everything taken from the polls. */
  lemma FinishedRecord(trace: seq<Tick>, t: Tick, k: string, window: nat)
    requires window >= 1 && Ungated(trace, k) && Writes(RunKey(trace, k, window), t, k) != []
    ensures exists s: nat :: Ends(Writes(RunKey(trace, k, window), t, k)[0], trace, t, k, window, s)
  {
    FinalizedEpisode(trace, t, k, window);
    ActiveIffRecent(trace, k, window);
    var op := RunKey(trace, k, window).value;
    var s: int :| Tracks(op, trace, k, window, s);
    EndsOf(op, trace, t, k, window, s);
  }

  lemma EndsOf(op: TrackedOperation, trace: seq<Tick>, t: Tick, k: string, window: nat, s: nat)
    requires window >= 1 && Tracks(op, trace, k, window, s)
    requires !Obs(trace, k, |trace| - 1) && Obs(trace, k, |trace| - 2)
    ensures Ends(Final(FinalRecord(op, ClassifyOutcome(op), t.now(k)), k !in t.lost), trace, t, k, window, s)
  {
    hide ClassifyOutcome, FinalRecord, Records, Sightings, OutcomeIs, Observations, LastN;
    OutcomeMeans(op, trace, k, window, s, |trace| - 2);
    RecordOf(op, ClassifyOutcome(op), t.now(k), trace, k, window, s, |trace| - 2);
  }

  /** The record of an operation that is still active when the tracker stops. */
  lemma FlushedRecord(trace: seq<Tick>, k: string, window: nat, now: int, stored: bool, l: nat)
    requires window >= 1 && Ungated(trace, k) && LastSeen(trace, k, l)
    ensures |Flushed(trace, k, window, now, stored)| == 1
    ensures exists s: nat :: s <= l && StartsAt(trace, k, s) && Unbroken(trace, k, s) && Sightings(trace, k, s) != []
              && var f := Flushed(trace, k, window, now, stored)[0];
                 && Records(f.record, trace, k, window, s, l) && f.record.outcome == "unknown"
                 && f.record.completedAt == now && f.stored == stored
  {
    ActiveIffRecent(trace, k, window);
    var op := RunKey(trace, k, window).value;
    var s :| Tracks(op, trace, k, window, s);
    hide FinalRecord, Records, Sightings;
    RecordOf(op, "unknown", now, trace, k, window, s, l);
  }

  /** The reindex gate: an index build not tracked yet is taken up exactly when the probe says it is a reindex,
      and under that name. */
  lemma GatedStart(trace: seq<Tick>, k: string, window: nat)
    requires window >= 1 && trace != [] && RunKey(trace[..|trace| - 1], k, window).None?
    requires k in trace[|trace| - 1].current && trace[|trace| - 1].current[k].opType == "create_index"
    ensures RunKey(trace, k, window).Some? <==> k in trace[|trace| - 1].reindex
    ensures RunKey(trace, k, window).Some? ==> RunKey(trace, k, window).value.operation == "reindex_concurrent"
  {
  }
}
