/** The step rows of playbook runs (internal/playbook/pgstore.go): each statement is one atomic change. */
module PlaybookStore {

  datatype Status = Pending | AwaitingConfirmation | PendingApproval | Running | Completed | Failed | Skipped

  datatype StepKey = StepKey(runId: int, stepOrder: int)

  datatype RunStep = RunStep(status: Status, error: string)

  type Rows = map<StepKey, RunStep>

  /** The statuses from which an execution may be locked. */
  predicate Lockable(st: Status) { st.Pending? || st.AwaitingConfirmation? || st.PendingApproval? }

  predicate CanLock(rows: Rows, k: StepKey) { k in rows && Lockable(rows[k].status) }

  function Locked(rows: Rows, k: StepKey): Rows {
    if CanLock(rows, k) then rows[k := rows[k].(status := Running)] else rows
  }

  function Updated(rows: Rows, k: StepKey, step: RunStep): Rows { if k in rows then rows[k := step] else rows }

  function ResetForRetry(rows: Rows, k: StepKey): Rows {
    if k in rows && rows[k].status.Failed? then rows[k := RunStep(Pending, "")] else rows
  }

  function ApprovalRequested(rows: Rows, k: StepKey): Rows {
    if k in rows && (rows[k].status.Pending? || rows[k].status.AwaitingConfirmation?)
    then rows[k := rows[k].(status := PendingApproval)] else rows
  }

  class PGStore {
    var rows: Rows

    constructor ()
      ensures rows == map[]
    {
      rows := map[];
    }

    /** Insert, or overwrite on conflict. */
    method CreateRunStep(k: StepKey, step: RunStep)
      modifies this
      ensures rows == old(rows)[k := step]
    {
      rows := rows[k := step];
    }

    /** Unconditional, but only on an existing row. */
    method UpdateRunStep(k: StepKey, step: RunStep)
      modifies this
      ensures rows == Updated(old(rows), k, step)
      ensures rows.Keys == old(rows).Keys && forall j :: j in rows ==> rows[j] == if j == k then step else old(rows)[j]
    {
      if k in rows {
        rows := rows[k := step];
      }
    }

    /** The compare-and-set that guards execution. */
    method LockStepForExecution(k: StepKey) returns (locked: bool)
      modifies this
      ensures locked == CanLock(old(rows), k) && rows == Locked(old(rows), k)
      ensures locked <==> k in old(rows) && old(rows)[k].status in {Pending, AwaitingConfirmation, PendingApproval}
      ensures locked ==> rows == old(rows)[k := RunStep(Running, old(rows)[k].error)]
      ensures !locked ==> rows == old(rows)
      ensures !CanLock(rows, k)
    {
      if k !in rows {
        return false;
      }
      match rows[k].status {
        case Pending | AwaitingConfirmation | PendingApproval =>
          rows := rows[k := rows[k].(status := Running)];
          locked := true;
        case Running | Completed | Failed | Skipped =>
          locked := false;
      }
    }

    method ResetStepForRetry(k: StepKey)
      modifies this
      ensures rows == ResetForRetry(old(rows), k)
      ensures k in old(rows) && old(rows)[k].status == Failed ==> rows == old(rows)[k := RunStep(Pending, "")]
      ensures !(k in old(rows) && old(rows)[k].status == Failed) ==> rows == old(rows)
    {
      if k in rows && rows[k].status == Failed {
        rows := rows[k := rows[k].(status := Pending, error := "")];
      }
    }

    method RequestStepApproval(k: StepKey)
      modifies this
      ensures rows == ApprovalRequested(old(rows), k)
      ensures k in old(rows) && old(rows)[k].status in {Pending, AwaitingConfirmation} ==>
                rows == old(rows)[k := RunStep(PendingApproval, old(rows)[k].error)]
      ensures !(k in old(rows) && old(rows)[k].status in {Pending, AwaitingConfirmation}) ==> rows == old(rows)
    {
      if k in rows && (rows[k].status == Pending || rows[k].status == AwaitingConfirmation) {
        rows := rows[k := rows[k].(status := PendingApproval)];
      }
    }
  }
}
