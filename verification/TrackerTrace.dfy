/** What the operation tracker holds after any sequence of polls, said in terms of the observations. */
module TrackerTrace {
  import opened Basics
  import opened Tracker

  /** The operation tracked for `k` after the ticks of `trace`, starting from an empty tracker. */
  ghost function RunKey(trace: seq<Tick>, k: string, window: nat): Option<TrackedOperation>
    requires window >= 1
  {
    if trace == [] then None
    else StepKey(RunKey(trace[..|trace| - 1], k, window), trace[|trace| - 1], k, window)
  }

  /** What those ticks finalized for `k`. */
  ghost function Written(trace: seq<Tick>, k: string, window: nat): seq<Final>
    requires window >= 1
  {
    if trace == [] then []
    else
      var init := trace[..|trace| - 1];
      Written(init, k, window) + Writes(RunKey(init, k, window), trace[|trace| - 1], k)
  }

  /** What the closing flush finalizes for `k`. */
  ghost function Flushed(trace: seq<Tick>, k: string, window: nat, now: int, stored: bool): seq<Final>
    requires window >= 1
  {
    var op := RunKey(trace, k, window);
    if op.Some? then [Final(FinalRecord(op.value, "unknown", now), stored)] else []
  }

  /** The tracker's main loop: poll until the context ends, then flush. */
  method Run(tracker: OperationTracker, trace: seq<Tick>, now: string -> int, lost: set<string>)
    requires tracker.windowSize >= 1 && tracker.activeOps == map[] && tracker.written == []
    modifies tracker
    ensures tracker.activeOps == map[]
    ensures forall k ::
              LogOf(tracker.written, k)
              == Written(trace, k, tracker.windowSize) + Flushed(trace, k, tracker.windowSize, now(k), k !in lost)
  {
    for i := 0 to |trace|
      invariant forall k :: Find(tracker.activeOps, k) == RunKey(trace[..i], k, tracker.windowSize)
      invariant forall k :: LogOf(tracker.written, k) == Written(trace[..i], k, tracker.windowSize)
    {
      assert trace[..i + 1][..i] == trace[..i];
      tracker.RunTick(trace[i]);
    }
    assert trace[..|trace|] == trace;
    ghost var ops := tracker.activeOps;
    tracker.FlushAll("unknown", now, lost);
    forall k
      ensures LogOf(tracker.written, k)
              == Written(trace, k, tracker.windowSize) + Flushed(trace, k, tracker.windowSize, now(k), k !in lost)
    {
      assert Find(ops, k) == RunKey(trace, k, tracker.windowSize);
    }
  }

  ghost predicate Obs(trace: seq<Tick>, k: string, i: int) {
    0 <= i < |trace| && k in trace[i].current
  }

  /** No observation of `k` goes through the reindex gate. */
  ghost predicate Ungated(trace: seq<Tick>, k: string) {
    forall i :: Obs(trace, k, i) ==> !Gated(trace[i].current[k])
  }

  /** Observed in at least one of the last two ticks. */
  ghost predicate Recent(trace: seq<Tick>, k: string) {
    Obs(trace, k, |trace| - 1) || Obs(trace, k, |trace| - 2)
  }

  /** An episode starts where `k` is observed after two ticks without it. */
  ghost predicate StartsAt(trace: seq<Tick>, k: string, s: int) {
    Obs(trace, k, s) && !Obs(trace, k, s - 1) && !Obs(trace, k, s - 2)
  }

  /** No two misses in a row after `s`. */
  ghost predicate Unbroken(trace: seq<Tick>, k: string, s: int) {
    forall j :: s < j < |trace| ==> Obs(trace, k, j) || Obs(trace, k, j - 1)
  }

  /** The observations of `k` from tick `s` on. */
  ghost function Observations(trace: seq<Tick>, k: string, s: nat): seq<ProgressSample> {
    if |trace| <= s then []
    else
      var t := trace[|trace| - 1];
      Observations(trace[..|trace| - 1], k, s) + if k in t.current then [SampleOf(t.current[k])] else []
  }

  lemma LastNSnoc(xs: seq<ProgressSample>, x: ProgressSample, n: nat)
    requires n >= 1
    ensures AppendSample(LastN(xs, n), x, n) == LastN(xs + [x], n)
  {
  }

  /** The operation is what the first observation of its episode said it is. */
  ghost predicate Named(op: TrackedOperation, c: CurrentOp) {
    && op.instanceId == c.instanceId && op.pid == c.pid && op.database == c.database && op.table == c.table
    && op.operation == c.opType && op.startedAt == c.timestamp
  }

  /** The operation is the current episode: its start, its last sighting and its latest samples. */
  ghost predicate Tracks(op: TrackedOperation, trace: seq<Tick>, k: string, window: nat, s: int) {
    && StartsAt(trace, k, s) && Unbroken(trace, k, s)
    && Named(op, trace[s].current[k])
    && op.samples == LastN(Observations(trace, k, s), window)
    && op.missedPolls == (if Obs(trace, k, |trace| - 1) then 0 else 1)
    && (var last := if Obs(trace, k, |trace| - 1) then |trace| - 1 else |trace| - 2;
        Obs(trace, k, last) && op.lastSeenAt == trace[last].current[k].timestamp)
  }

  lemma ObsPrefix(trace: seq<Tick>, k: string)
    requires trace != []
    ensures forall i :: i < |trace| - 1 ==> Obs(trace, k, i) == Obs(trace[..|trace| - 1], k, i)
  {
  }

  lemma TracksSnoc(op: TrackedOperation, trace: seq<Tick>, k: string, window: nat, s: int, op': TrackedOperation)
    requires window >= 1 && trace != [] && Tracks(op, trace[..|trace| - 1], k, window, s)
    requires StepKey(Some(op), trace[|trace| - 1], k, window) == Some(op')
    ensures Tracks(op', trace, k, window, s)
  {
    var init, t := trace[..|trace| - 1], trace[|trace| - 1];
    ObsPrefix(trace, k);
    forall j | s < j < |trace| ensures Obs(trace, k, j) || Obs(trace, k, j - 1) {
      if j < |trace| - 1 { assert Obs(init, k, j) || Obs(init, k, j - 1); }
    }
    if k in t.current {
      LastNSnoc(Observations(init, k, s), SampleOf(t.current[k]), window);
    } else {
      assert Observations(trace, k, s) == Observations(init, k, s);
    }
  }

  lemma TracksNew(trace: seq<Tick>, k: string, window: nat)
    requires window >= 1 && StartsAt(trace, k, |trace| - 1) && !Gated(trace[|trace| - 1].current[k])
    ensures Tracks(NewOp(trace[|trace| - 1].current[k], window), trace, k, window, |trace| - 1)
  {
    var n, c := |trace|, trace[|trace| - 1].current[k];
    assert Observations(trace[..n - 1], k, n - 1) == [];
    assert Observations(trace, k, n - 1) == [] + [SampleOf(c)];
  }

  /** The tracker holds `k` exactly when it was seen in one of the last two ticks, and then holds the
      episode it is in. */
  lemma {:induction false} ActiveIffRecent(trace: seq<Tick>, k: string, window: nat)
    requires window >= 1 && Ungated(trace, k)
    ensures RunKey(trace, k, window).Some? <==> Recent(trace, k)
    ensures Recent(trace, k) ==> exists s :: Tracks(RunKey(trace, k, window).value, trace, k, window, s)
  {
    if trace != [] {
      var init, t := trace[..|trace| - 1], trace[|trace| - 1];
      ObsPrefix(trace, k);
      assert Ungated(init, k) by {
        forall i | Obs(init, k, i) ensures !Gated(init[i].current[k]) { assert Obs(trace, k, i); }
      }
      ActiveIffRecent(init, k, window);
      assert Obs(trace, k, |trace| - 1) <==> k in t.current;
      if Recent(init, k) {
        var op := RunKey(init, k, window).value;
        var s :| Tracks(op, init, k, window, s);
        if Recent(trace, k) {
          TracksSnoc(op, trace, k, window, s, RunKey(trace, k, window).value);
        }
      } else if k in t.current {
        TracksNew(trace, k, window);
      }
    }
  }

  /** The number of episodes of `k` that `trace` starts. */
  ghost function Episodes(trace: seq<Tick>, k: string): nat {
    if trace == [] then 0
    else Episodes(trace[..|trace| - 1], k) + if StartsAt(trace, k, |trace| - 1) then 1 else 0
  }

  /** Every episode is finalized exactly once: those not finalized yet are the one being tracked. */
  lemma {:induction false} EpisodesConserved(trace: seq<Tick>, k: string, window: nat)
    requires window >= 1 && Ungated(trace, k)
    ensures Episodes(trace, k) == |Written(trace, k, window)| + if Recent(trace, k) then 1 else 0
  {
    if trace != [] {
      var init := trace[..|trace| - 1];
      ObsPrefix(trace, k);
      assert Ungated(init, k) by {
        forall i | Obs(init, k, i) ensures !Gated(init[i].current[k]) { assert Obs(trace, k, i); }
      }
      EpisodesConserved(init, k, window);
      ActiveIffRecent(init, k, window);
      if Recent(init, k) {
        var s :| Tracks(RunKey(init, k, window).value, init, k, window, s);
      }
    }
  }

  /** For every key, gated or not: operations started are finalized once or still tracked. */
  ghost function Starts(trace: seq<Tick>, k: string, window: nat): nat
    requires window >= 1
  {
    if trace == [] then 0
    else
      var init := trace[..|trace| - 1];
      Starts(init, k, window)
      + if RunKey(init, k, window).None? && RunKey(trace, k, window).Some? then 1 else 0
  }

  lemma {:induction false} StartsConserved(trace: seq<Tick>, k: string, window: nat)
    requires window >= 1
    ensures Starts(trace, k, window)
            == |Written(trace, k, window)| + if RunKey(trace, k, window).Some? then 1 else 0
  {
    if trace != [] { StartsConserved(trace[..|trace| - 1], k, window); }
  }

  /** A tick finalizes `k` exactly when it is the second miss in a row after an observation, and then the record
      carries the start of the episode that ends. */
  lemma FinalizedEpisode(trace: seq<Tick>, t: Tick, k: string, window: nat)
    requires window >= 1 && Ungated(trace, k)
    ensures Writes(RunKey(trace, k, window), t, k) != []
            <==> !Obs(trace, k, |trace| - 1) && Obs(trace, k, |trace| - 2) && k !in t.current
    ensures Writes(RunKey(trace, k, window), t, k) != [] ==>
              exists s :: StartsAt(trace, k, s) && Unbroken(trace, k, s)
                && Writes(RunKey(trace, k, window), t, k)[0].record.startedAt == trace[s].current[k].timestamp
  {
    ActiveIffRecent(trace, k, window);
    if Recent(trace, k) {
      var s :| Tracks(RunKey(trace, k, window).value, trace, k, window, s);
    }
  }

  /** The first timestamps of the episodes of `k`, in order. */
  ghost function EpisodeStarts(trace: seq<Tick>, k: string): seq<int> {
    if trace == [] then []
    else
      EpisodeStarts(trace[..|trace| - 1], k)
      + if StartsAt(trace, k, |trace| - 1) then [trace[|trace| - 1].current[k].timestamp] else []
  }

  ghost function StartTimes(finals: seq<Final>): seq<int> {
    if finals == [] then [] else StartTimes(finals[..|finals| - 1]) + [finals[|finals| - 1].record.startedAt]
  }

  ghost function ActiveStart(op: Option<TrackedOperation>): seq<int> {
    if op.Some? then [op.value.startedAt] else []
  }

  lemma StartTimesSnoc(finals: seq<Final>, f: Final)
    ensures StartTimes(finals + [f]) == StartTimes(finals) + [f.record.startedAt]
  {
    assert (finals + [f])[..|finals|] == finals;
  }

  /** Start times of the finalized operations, then of the active one, are the starts of the episodes: each
      episode is finalized once, in order, with its own start. */
  lemma {:induction false} StartsInOrder(trace: seq<Tick>, k: string, window: nat)
    requires window >= 1 && Ungated(trace, k)
    ensures StartTimes(Written(trace, k, window)) + ActiveStart(RunKey(trace, k, window)) == EpisodeStarts(trace, k)
  {
    if trace != [] {
      var init, t := trace[..|trace| - 1], trace[|trace| - 1];
      ObsPrefix(trace, k);
      assert Ungated(init, k) by {
        forall i | Obs(init, k, i) ensures !Gated(init[i].current[k]) { assert Obs(trace, k, i); }
      }
      StartsInOrder(init, k, window);
      ActiveIffRecent(init, k, window);
      FinalizedEpisode(init, t, k, window);
      var op, done := RunKey(init, k, window), Written(init, k, window);
      StartStep(op, t, k, window, done);
      assert StartsAt(trace, k, |trace| - 1) <==> op.None? && k in t.current;
    }
  }

  /** One tick, seen from the start times of a key. */
  lemma StartStep(op: Option<TrackedOperation>, t: Tick, k: string, window: nat, done: seq<Final>)
    requires window >= 1 && (k in t.current ==> !Gated(t.current[k]))
    ensures StartTimes(done + Writes(op, t, k)) + ActiveStart(StepKey(op, t, k, window))
            == StartTimes(done) + ActiveStart(op)
               + if op.None? && k in t.current then [t.current[k].timestamp] else []
  {
    if Ends(op, k in t.current) {
      StartTimesSnoc(done, Writes(op, t, k)[0]);
    } else {
      assert done + [] == done;
    }
  }
}
