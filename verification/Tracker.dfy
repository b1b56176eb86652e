/** `OperationTracker` (internal/forecast/tracker.go): maintenance operations started, sampled and
    finalized from what each poll observes. Timestamps are in nanoseconds; one tick's observation is
    the `currentOps` map it builds, together with the keys that `identifyReindex` accepts. */
module Tracker {
  import opened Basics
  import opened Sorting

  datatype CurrentOp = CurrentOp(instanceId: string, pid: int, opType: string, database: string, table: string,
                                 pctDone: real, workDone: real, timestamp: int)

  datatype ProgressSample = ProgressSample(timestamp: int, workDone: real, workTotal: real, pctDone: real)

  datatype TrackedOperation = TrackedOperation(
    instanceId: string, pid: int, operation: string, database: string, table: string,
    startedAt: int, lastSeenAt: int, missedPolls: nat, samples: seq<ProgressSample>)

  datatype MaintenanceOperation = MaintenanceOperation(
    instanceId: string, operation: string, outcome: string, database: string, table: string,
    startedAt: int, completedAt: int, durationSec: real, finalPct: real, avgRatePerSec: real)

  /** `now` is the clock when a key is finalized, `lost` the keys whose record the store fails to write. */
  datatype Tick = Tick(current: map<string, CurrentOp>, reindex: set<string>, now: string -> int, lost: set<string>)

  function Find<T>(m: map<string, T>, k: string): Option<T> { if k in m then Some(m[k]) else None }

  function AppendSample(samples: seq<ProgressSample>, s: ProgressSample, maxSize: nat): seq<ProgressSample>
    requires maxSize >= 1
  {
    (if |samples| >= maxSize then samples[1..] else samples) + [s]
  }

  function SampleOf(c: CurrentOp): ProgressSample { ProgressSample(c.timestamp, c.workDone, 0.0, c.pctDone) }

  predicate Gated(c: CurrentOp) { c.opType == "create_index" }

  function NewOp(c: CurrentOp, window: nat): TrackedOperation
    requires window >= 1
  {
    TrackedOperation(c.instanceId, c.pid, if Gated(c) then "reindex_concurrent" else c.opType, c.database, c.table,
                     c.timestamp, c.timestamp, 0, AppendSample([], SampleOf(c), window))
  }

  /** An observed key: refresh the operation, or start one unless the reindex gate refuses it. */
  function Observed(op: Option<TrackedOperation>, c: CurrentOp, isReindex: bool, window: nat): Option<TrackedOperation>
    requires window >= 1
  {
    match op
    case Some(o) => Some(o.(missedPolls := 0, lastSeenAt := c.timestamp,
                            samples := AppendSample(o.samples, SampleOf(c), window)))
    case None => if Gated(c) && !isReindex then None else Some(NewOp(c, window))
  }

  /** The second missed poll in a row ends an operation. */
  predicate Ends(op: Option<TrackedOperation>, observed: bool) {
    op.Some? && !observed && op.value.missedPolls + 1 >= 2
  }

  /** The two halves of a tick, seen from one key: first update or start, then drop what is finished. */
  function AfterUpdate(op: Option<TrackedOperation>, t: Tick, k: string, window: nat): Option<TrackedOperation>
    requires window >= 1
  {
    if k in t.current then Observed(op, t.current[k], k in t.reindex, window) else op
  }

  function AfterDrop(op: Option<TrackedOperation>, t: Tick, k: string): Option<TrackedOperation> {
    if k in t.current || op.None? then op
    else if Ends(op, false) then None
    else Some(op.value.(missedPolls := op.value.missedPolls + 1))
  }

  function StepKey(op: Option<TrackedOperation>, t: Tick, k: string, window: nat): Option<TrackedOperation>
    requires window >= 1
  {
    AfterDrop(AfterUpdate(op, t, k, window), t, k)
  }

  /** What a tick finalizes for a key. */
  function Writes(op: Option<TrackedOperation>, t: Tick, k: string): seq<Final> {
    if Ends(op, k in t.current)
    then [Final(FinalRecord(op.value, ClassifyOutcome(op.value), t.now(k)), k !in t.lost)] else []
  }

  function Seconds(from: int, to: int): real { (to - from) as real / 1000000000.0 }

  function ClassifyOutcome(op: TrackedOperation): string {
    if op.samples == [] then "unknown"
    else if op.samples[|op.samples| - 1].pctDone >= 99.0 then "completed"
    else if Seconds(op.startedAt, op.lastSeenAt) > 2.0 then "disappeared"
    else "unknown"
  }

  function FinalRecord(op: TrackedOperation, outcome: string, now: int): MaintenanceOperation {
    var duration := Seconds(op.startedAt, op.lastSeenAt);
    var n := |op.samples|;
    MaintenanceOperation(op.instanceId, op.operation, outcome, op.database, op.table, op.startedAt, now, duration,
                         if n > 0 then op.samples[n - 1].pctDone else 0.0,
                         if n > 0 && duration > 0.0
                         then (op.samples[n - 1].workDone - op.samples[0].workDone) / duration else 0.0)
  }

  /** A finalized operation: its record, and whether the store took it. The operation is gone either way. */
  datatype Final = Final(record: MaintenanceOperation, stored: bool)

  datatype Finalized = Finalized(key: string, final: Final)

  /** What was finalized for one key, in order. */
  ghost function LogOf(log: seq<Finalized>, k: string): seq<Final> {
    if log == [] then []
    else
      var rest := LogOf(log[..|log| - 1], k);
      if log[|log| - 1].key == k then rest + [log[|log| - 1].final] else rest
  }

  lemma LogSnoc(log: seq<Finalized>, f: Finalized, k: string)
    ensures LogOf(log + [f], k) == if f.key == k then LogOf(log, k) + [f.final] else LogOf(log, k)
  {
    assert (log + [f])[..|log|] == log;
  }

  class OperationTracker {
    const windowSize: nat
    var activeOps: map<string, TrackedOperation>
    var written: seq<Finalized>

    constructor (windowSize: nat)
      requires windowSize >= 1
      ensures this.windowSize == windowSize && activeOps == map[] && written == []
    {
      this.windowSize := windowSize;
      activeOps, written := map[], [];
    }

    /** Step 3 of the source's tick: update or start what is observed. */
    method UpdateOrStart(t: Tick)
      requires windowSize >= 1
      modifies this`activeOps
      ensures forall k :: Find(activeOps, k) == AfterUpdate(old(Find(activeOps, k)), t, k, windowSize)
    {
      var keys := Enumerate(t.current.Keys);
      ghost var ops := activeOps;
      for i := 0 to |keys|
        invariant forall k :: k in keys[..i] ==> Find(activeOps, k) == AfterUpdate(Find(ops, k), t, k, windowSize)
        invariant forall k :: k !in keys[..i] ==> Find(activeOps, k) == Find(ops, k)
      {
        var key := keys[i];
        NoRepeat(keys, t.current.Keys, i);
        assert keys[..i + 1] == keys[..i] + [key];
        assert Find(activeOps, key) == Find(ops, key);
        var cop := t.current[key];
        if key in activeOps {
          var existing := activeOps[key];
          activeOps := activeOps[key := existing.(missedPolls := 0, lastSeenAt := cop.timestamp,
                                     samples := AppendSample(existing.samples, SampleOf(cop), windowSize))];
        } else if !Gated(cop) || key in t.reindex {
          activeOps := activeOps[key := NewOp(cop, windowSize)];
        }
      }
      assert keys[..|keys|] == keys;
    }

    method CheckCompleted(key: string, t: Tick)
      requires key in activeOps
      modifies this`activeOps, this`written
      ensures Find(activeOps, key) == AfterDrop(old(Find(activeOps, key)), t, key)
      ensures forall k :: k != key ==> Find(activeOps, k) == old(Find(activeOps, k))
      ensures LogOf(written, key) == old(LogOf(written, key)) + Writes(old(Find(activeOps, key)), t, key)
      ensures forall k :: k != key ==> LogOf(written, k) == old(LogOf(written, k))
    {
      if key in t.current {
        return;
      }
      var op := activeOps[key].(missedPolls := activeOps[key].missedPolls + 1);
      if op.missedPolls < 2 {
        activeOps := activeOps[key := op];
      } else {
        var f := Finalized(key, Final(FinalRecord(op, ClassifyOutcome(op), t.now(key)), key !in t.lost));
        forall k ensures LogOf(written + [f], k)
                         == if k == key then LogOf(written, k) + [f.final] else LogOf(written, k)
        {
          LogSnoc(written, f, k);
        }
        written := written + [f];
        activeOps := map k | k in activeOps && k != key :: activeOps[k];
      }
    }

    /** Step 4: count misses, finalize on the second one. */
    method DropFinished(t: Tick)
      modifies this`activeOps, this`written
      ensures forall k :: Find(activeOps, k) == AfterDrop(old(Find(activeOps, k)), t, k)
      ensures forall k :: LogOf(written, k) == old(LogOf(written, k)) + Writes(old(Find(activeOps, k)), t, k)
    {
      var keys := Enumerate(activeOps.Keys);
      ghost var ops, log := activeOps, written;
      for i := 0 to |keys|
        invariant forall k :: k in keys[..i] ==> Find(activeOps, k) == AfterDrop(Find(ops, k), t, k)
        invariant forall k :: k !in keys[..i] ==> Find(activeOps, k) == Find(ops, k)
        invariant forall k :: k in keys[..i] ==> LogOf(written, k) == LogOf(log, k) + Writes(Find(ops, k), t, k)
        invariant forall k :: k !in keys[..i] ==> LogOf(written, k) == LogOf(log, k)
      {
        hide AfterDrop, Writes, LogOf;
        var key := keys[i];
        NoRepeat(keys, ops.Keys, i);
        assert keys[..i + 1] == keys[..i] + [key];
        assert Find(activeOps, key) == Find(ops, key) == Some(ops[key]);
        CheckCompleted(key, t);
      }
      assert keys[..|keys|] == keys;
      forall k ensures Find(activeOps, k) == AfterDrop(Find(ops, k), t, k)
                       && LogOf(written, k) == LogOf(log, k) + Writes(Find(ops, k), t, k)
      {
        if k !in keys { assert Find(ops, k) == None && LogOf(log, k) + [] == LogOf(log, k); }
      }
    }

    /** One poll: every key moves as `StepKey` says, and a record is written exactly when an operation ends. */
    method RunTick(t: Tick)
      requires windowSize >= 1
      modifies this`activeOps, this`written
      ensures forall k :: Find(activeOps, k) == StepKey(old(Find(activeOps, k)), t, k, windowSize)
      ensures forall k :: LogOf(written, k) == old(LogOf(written, k)) + Writes(old(Find(activeOps, k)), t, k)
    {
      ghost var ops, log := activeOps, written;
      UpdateOrStart(t);
      ghost var mid := activeOps;
      assert forall k :: Find(mid, k) == AfterUpdate(Find(ops, k), t, k, windowSize);
      DropFinished(t);
      forall k ensures Find(activeOps, k) == StepKey(Find(ops, k), t, k, windowSize)
                       && LogOf(written, k) == LogOf(log, k) + Writes(Find(ops, k), t, k)
      {
        assert Find(mid, k) == AfterUpdate(Find(ops, k), t, k, windowSize);
      }
    }

    /** Shutdown: everything still active is finalized, with the given outcome. */
    method FlushAll(outcome: string, now: string -> int, lost: set<string>)
      modifies this`activeOps, this`written
      ensures activeOps == map[]
      ensures forall k :: LogOf(written, k) == old(LogOf(written, k)) +
                if k in old(activeOps) then [Final(FinalRecord(old(activeOps)[k], outcome, now(k)), k !in lost)] else []
    {
      hide FinalRecord, LogOf;
      var keys := Enumerate(activeOps.Keys);
      ghost var log := written;
      assert forall k :: LogOf(log, k) + [] == LogOf(log, k);
      for i := 0 to |keys|
        invariant activeOps == old(activeOps)
        invariant forall k :: k in keys[..i] ==>
                    LogOf(written, k) == LogOf(log, k) + [Final(FinalRecord(activeOps[k], outcome, now(k)), k !in lost)]
        invariant forall k :: k !in keys[..i] ==> LogOf(written, k) == LogOf(log, k)
      {
        var key := keys[i];
        NoRepeat(keys, activeOps.Keys, i);
        assert keys[..i + 1] == keys[..i] + [key];
        var f := Finalized(key, Final(FinalRecord(activeOps[key], outcome, now(key)), key !in lost));
        forall k ensures LogOf(written + [f], k)
                         == if k == key then LogOf(written, k) + [f.final] else LogOf(written, k)
        {
          LogSnoc(written, f, k);
        }
        written := written + [f];
      }
      assert keys[..|keys|] == keys;
      activeOps := map[];
    }
  }
}
