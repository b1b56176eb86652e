/** The alert history table (internal/alert/pgstore.go) as a list of rows. */
module AlertHistory {
  import opened Basics
  import opened AlertMachine
  import opened Sorting

  datatype HistoryRow = HistoryRow(ruleId: string, instanceId: string, severity: string, metric: string, value: real,
                                   threshold: real, firedAt: int, resolvedAt: Option<int>)

  function RowFor(ev: AlertEvent): HistoryRow {
    HistoryRow(ev.ruleId, ev.instanceId, ev.severity, ev.metric, ev.value, ev.threshold, ev.firedAt, None)
  }

  predicate IsOpen(row: HistoryRow, ruleId: string, instanceId: string) {
    row.ruleId == ruleId && row.instanceId == instanceId && row.resolvedAt.None?
  }

  function Resolved(rows: seq<HistoryRow>, ruleId: string, instanceId: string, at: int): (r: seq<HistoryRow>)
    ensures |r| == |rows|
  {
    seq(|rows|, i requires 0 <= i < |rows| =>
      if IsOpen(rows[i], ruleId, instanceId) then rows[i].(resolvedAt := Some(at)) else rows[i])
  }

  predicate Expired(row: HistoryRow, cutoff: int) { row.resolvedAt.Some? && row.resolvedAt.value < cutoff }

  function Cleaned(rows: seq<HistoryRow>, cutoff: int): seq<HistoryRow> {
    if rows == [] then []
    else
      var rest := Cleaned(rows[..|rows| - 1], cutoff);
      if Expired(rows[|rows| - 1], cutoff) then rest else rest + [rows[|rows| - 1]]
  }

  function Unresolved(rows: seq<HistoryRow>): seq<HistoryRow> {
    if rows == [] then []
    else
      var rest := Unresolved(rows[..|rows| - 1]);
      if rows[|rows| - 1].resolvedAt.None? then rest + [rows[|rows| - 1]] else rest
  }

  /** The unresolved rows of one (rule, instance). */
  ghost function Open(rows: seq<HistoryRow>, ruleId: string, instanceId: string): seq<HistoryRow> {
    if rows == [] then []
    else
      var rest := Open(rows[..|rows| - 1], ruleId, instanceId);
      if IsOpen(rows[|rows| - 1], ruleId, instanceId) then rest + [rows[|rows| - 1]] else rest
  }

  /** Newest fire first, as the restore query orders them. */
  predicate LaterFirst(a: HistoryRow, b: HistoryRow) { a.firedAt >= b.firedAt }

  class HistoryStore {
    var rows: seq<HistoryRow>

    constructor ()
      ensures rows == []
    {
      rows := [];
    }

    method Record(ev: AlertEvent)
      modifies this
      ensures rows == old(rows) + [RowFor(ev)]
      ensures var row := rows[|rows| - 1];
              && row.ruleId == ev.ruleId && row.instanceId == ev.instanceId && row.severity == ev.severity
              && row.metric == ev.metric && row.value == ev.value && row.threshold == ev.threshold
              && row.firedAt == ev.firedAt && row.resolvedAt == None
    {
      rows := rows + [HistoryRow(ev.ruleId, ev.instanceId, ev.severity, ev.metric, ev.value, ev.threshold,
                                 ev.firedAt, None)];
    }

    method Resolve(ruleId: string, instanceId: string, resolvedAt: int)
      modifies this
      ensures rows == Resolved(old(rows), ruleId, instanceId, resolvedAt)
      ensures forall i :: 0 <= i < |rows| ==>
                var was := old(rows)[i];
                if was.ruleId == ruleId && was.instanceId == instanceId && was.resolvedAt.None?
                then rows[i].resolvedAt == Some(resolvedAt) && rows[i].(resolvedAt := None) == was
                else rows[i] == was
    {
      var next: seq<HistoryRow> := [];
      for i := 0 to |rows|
        invariant rows == old(rows) && next == Resolved(rows, ruleId, instanceId, resolvedAt)[..i]
      {
        var row := rows[i];
        if row.ruleId == ruleId && row.instanceId == instanceId && row.resolvedAt == None {
          row := row.(resolvedAt := Some(resolvedAt));
        }
        next := next + [row];
      }
      rows := next;
    }

    method ListUnresolved() returns (events: seq<HistoryRow>)
      ensures multiset(events) == multiset(Unresolved(rows))
      ensures forall i, j :: 0 <= i < j < |events| ==> events[i].firedAt >= events[j].firedAt
      ensures forall row :: row in events <==> row in rows && row.resolvedAt.None?
    {
      events := [];
      for i := 0 to |rows|
        invariant events == Unresolved(rows[..i])
      {
        assert rows[..i + 1][..i] == rows[..i];
        if rows[i].resolvedAt == None {
          events := events + [rows[i]];
        }
      }
      assert rows[..|rows|] == rows;
      var sorted := Sort(events, LaterFirst);
      SamePermutation(sorted, events);
      forall row ensures row in events <==> row in rows && row.resolvedAt.None? { UnresolvedMembers(rows, row); }
      events := sorted;
    }

    method Cleanup(cutoff: int) returns (deleted: nat)
      modifies this
      ensures rows == Cleaned(old(rows), cutoff) && deleted == |old(rows)| - |rows|
      ensures forall row :: row in rows <==>
                row in old(rows) && (row.resolvedAt.None? || row.resolvedAt.value >= cutoff)
    {
      var kept: seq<HistoryRow> := [];
      for i := 0 to |rows|
        invariant rows == old(rows) && kept == Cleaned(rows[..i], cutoff) && |kept| <= i
      {
        assert rows[..i + 1][..i] == rows[..i];
        if rows[i].resolvedAt == None || rows[i].resolvedAt.value >= cutoff {
          kept := kept + [rows[i]];
        }
      }
      assert rows[..|rows|] == rows;
      deleted := |rows| - |kept|;
      forall row ensures row in kept <==> row in rows && (row.resolvedAt.None? || row.resolvedAt.value >= cutoff) {
        CleanedMembers(rows, cutoff, row);
      }
      rows := kept;
    }
  }

  lemma OpenSnoc(rows: seq<HistoryRow>, row: HistoryRow, r: string, i: string)
    ensures Open(rows + [row], r, i) == if IsOpen(row, r, i) then Open(rows, r, i) + [row] else Open(rows, r, i)
  {
    assert (rows + [row])[..|rows|] == rows;
  }

  /** Resolving closes every open row of the pair and no other. */
  lemma {:induction false} OpenResolved(rows: seq<HistoryRow>, ruleId: string, instanceId: string, at: int,
                                        r: string, i: string)
    ensures Open(Resolved(rows, ruleId, instanceId, at), r, i)
            == if r == ruleId && i == instanceId then [] else Open(rows, r, i)
  {
    if rows != [] {
      var init := rows[..|rows| - 1];
      OpenResolved(init, ruleId, instanceId, at, r, i);
      assert Resolved(rows, ruleId, instanceId, at)[..|rows| - 1] == Resolved(init, ruleId, instanceId, at);
    }
  }

  /** Cleanup never touches an open row. */
  lemma {:induction false} OpenCleaned(rows: seq<HistoryRow>, cutoff: int, r: string, i: string)
    ensures Open(Cleaned(rows, cutoff), r, i) == Open(rows, r, i)
  {
    if rows != [] {
      var init, last := rows[..|rows| - 1], rows[|rows| - 1];
      OpenCleaned(init, cutoff, r, i);
      OpenSnoc(Cleaned(init, cutoff), last, r, i);
    }
  }

  lemma {:induction false} UnresolvedMembers(rows: seq<HistoryRow>, row: HistoryRow)
    ensures row in Unresolved(rows) <==> row in rows && row.resolvedAt.None?
  {
    if rows != [] {
      UnresolvedMembers(rows[..|rows| - 1], row);
      assert rows == rows[..|rows| - 1] + [rows[|rows| - 1]];
    }
  }

  lemma {:induction false} OpenMembers(rows: seq<HistoryRow>, r: string, i: string, row: HistoryRow)
    ensures row in Open(rows, r, i) <==> row in rows && IsOpen(row, r, i)
  {
    if rows != [] {
      OpenMembers(rows[..|rows| - 1], r, i, row);
      assert rows == rows[..|rows| - 1] + [rows[|rows| - 1]];
    }
  }

  lemma {:induction false} CleanedMembers(rows: seq<HistoryRow>, cutoff: int, row: HistoryRow)
    ensures row in Cleaned(rows, cutoff) <==> row in rows && !Expired(row, cutoff)
  {
    if rows != [] {
      CleanedMembers(rows[..|rows| - 1], cutoff, row);
      assert rows == rows[..|rows| - 1] + [rows[|rows| - 1]];
    }
  }
}
