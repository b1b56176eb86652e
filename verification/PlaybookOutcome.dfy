/** What a step's row says about its executions (internal/api/playbooks.go), over whole runs. */
module PlaybookOutcome {
  import opened Basics
  import opened PlaybookStore
  import opened PlaybookProtocol

  // ---- the counters are counts of the trace

  ghost function Finishes(trace: seq<Action>, k: StepKey, success: bool): nat {
    if trace == [] then 0
    else
      var a := trace[|trace| - 1];
      Finishes(trace[..|trace| - 1], k, success)
      + if a.Finish? && a.key == k && a.success == success then 1 else 0
  }

  /** Successes and failures are the executions that ended so. */
  lemma {:induction false} CountersAreFinishes(trace: seq<Action>, k: StepKey)
    requires After(trace).Reached?
    ensures var s := After(trace).state;
            s.succeeded[k] == Finishes(trace, k, true) && s.failed[k] == Finishes(trace, k, false)
  {
    if trace != [] {
      CountersAreFinishes(trace[..|trace| - 1], k);
      hide After;
      var a := trace[|trace| - 1];
      if !a.Finish? || a.key != k { OnlyFinishCounts(After(trace[..|trace| - 1]).state, a, k); }
    }
  }

  lemma OnlyFinishCounts(s: State, a: Action, k: StepKey)
    requires Enabled(s, a) && (!a.Finish? || a.key != k)
    ensures Next(s, a).succeeded[k] == s.succeeded[k] && Next(s, a).failed[k] == s.failed[k]
  {
  }

  // ---- who may start an execution

  /** A step is started exactly by an answered request that its tier lets through, on a row in one of the three
      statuses that wait for it; nothing else starts it. */
  lemma StartedIff(s: State, a: Action, k: StepKey)
    requires Enabled(s, a)
    ensures Next(s, a).begun[k] == s.begun[k] || Next(s, a).begun[k] == s.begun[k] + 1
    ensures Next(s, a).begun[k] > s.begun[k] <==>
            && a.Execute? && a.key == k && a.reply.Answered? && !a.tier.External?
            && (a.tier.Remediate? ==> a.confirmed) && (a.tier.Dangerous? ==> a.authorised)
            && k in s.rows && s.rows[k].status in {Pending, AwaitingConfirmation, PendingApproval}
    ensures Next(s, a).begun[k] > s.begun[k] ==>
            Next(s, a).rows[k].status == Running && Next(s, a).inFlight[k] == s.inFlight[k] + 1
  {
  }

  /** An answered skip, or an answered request for an external step, closes the row without an execution. */
  lemma ClosedWithoutExecution(s: State, a: Action)
    requires (a.Skip? || (a.Execute? && a.tier.External?)) && a.reply.Answered? && a.key in s.rows
    ensures Next(s, a).begun == s.begun && Next(s, a).inFlight == s.inFlight
    ensures Next(s, a).rows == s.rows[a.key := RunStep(if a.Skip? then Skipped else Completed, "")]
  {
  }

  // ---- what the row says

  /** Nothing is lost, skipped or only acknowledged on this step. */
  ghost predicate Regular(a: Action, k: StepKey) {
    match a
    case StartRun(_) => true
    case CreateStep(key, reply) => key == k ==> reply.Answered?
    case Execute(key, tier, _, _, reply) => key == k ==> reply.Answered? && !tier.External?
    case Finish(key, _, _, reply) => key == k ==> reply.Answered?
    case Skip(key, _) => key != k
    case Retry(key, reply) => key == k ==> reply.Answered?
    case RequestApproval(key, reply) => key == k ==> reply.Answered?
  }

  ghost predicate RegularRun(trace: seq<Action>, k: StepKey) {
    forall i :: 0 <= i < |trace| ==> Regular(trace[i], k)
  }

  /** The status by the counts: waiting, running, completed or failed. */
  ghost predicate Shows(s: State, k: StepKey) {
    if k !in s.rows then s.begun[k] == s.inFlight[k] == s.succeeded[k] == s.failed[k] == s.resets[k] == 0
    else
      match s.rows[k].status
      case Pending => s.inFlight[k] == 0 && s.succeeded[k] == 0 && s.failed[k] == s.resets[k]
      case PendingApproval => s.inFlight[k] == 0 && s.succeeded[k] == 0 && s.failed[k] == s.resets[k]
      case Running => s.inFlight[k] == 1 && s.succeeded[k] == 0 && s.failed[k] == s.resets[k]
      case Completed => s.inFlight[k] == 0 && s.succeeded[k] == 1 && s.failed[k] == s.resets[k]
      case Failed => s.inFlight[k] == 0 && s.succeeded[k] == 0 && s.failed[k] == s.resets[k] + 1
      case _ => false
  }

  /** An action on another step leaves this one's row alone ... */
  lemma OtherRow(rows: Rows, a: Action, k: StepKey)
    requires a.StartRun? || a.key != k
    ensures var t := RowsAfter(rows, a); (k in t <==> k in rows) && (k in rows ==> t[k] == rows[k])
  {
  }

  /** ... and what is counted for it. */
  lemma OtherStarts(s: State, a: Action, k: StepKey)
    requires Enabled(s, a) && (a.StartRun? || a.key != k)
    ensures Next(s, a).begun[k] == s.begun[k] && Next(s, a).inFlight[k] == s.inFlight[k]
    ensures Next(s, a).rows == RowsAfter(s.rows, a)
  {
    hide RowsAfter;
  }

  lemma OtherEnds(s: State, a: Action, k: StepKey)
    requires Enabled(s, a) && (a.StartRun? || a.key != k)
    ensures Next(s, a).succeeded[k] == s.succeeded[k] && Next(s, a).failed[k] == s.failed[k]
    ensures Next(s, a).resets[k] == s.resets[k]
  {
    hide RowsAfter;
  }

  lemma ShowsOther(s: State, a: Action, k: StepKey)
    requires Enabled(s, a) && Shows(s, k) && (a.StartRun? || a.key != k)
    ensures Shows(Next(s, a), k)
  {
    hide Next, Enabled, RowsAfter;
    OtherRow(s.rows, a, k);
    OtherStarts(s, a, k);
    OtherEnds(s, a, k);
  }

  lemma ShowsOwn(s: State, a: Action, k: StepKey)
    requires Enabled(s, a) && Shows(s, k) && CreationInv(s, k) && Regular(a, k) && !a.StartRun? && a.key == k
    ensures Shows(Next(s, a), k)
  {
    match a
    case StartRun(_) =>
    case CreateStep(_, _) => assert k !in s.rows;
    case Execute(_, _, _, _, _) =>
    case Finish(_, _, _, _) => assert s.inFlight[k] == 1 && k in s.rows;
    case Skip(_, _) =>
    case Retry(_, _) =>
    case RequestApproval(_, _) =>
  }

  lemma {:induction false} RegularShows(trace: seq<Action>, k: StepKey)
    requires After(trace).Reached? && RegularRun(trace, k)
    ensures Shows(After(trace).state, k)
  {
    if trace != [] {
      var init, a := trace[..|trace| - 1], trace[|trace| - 1];
      RegularShows(init, k);
      Invariant(init, k);
      hide Shows, CreationInv, ExecutionInv, Next, Enabled, Regular;
      if a.StartRun? || a.key != k { ShowsOther(After(init).state, a, k); } else { ShowsOwn(After(init).state, a, k); }
    }
  }

  /** In a run without lost replies, skips and acknowledgements on the step: a row with nothing in flight is
      completed exactly when an execution succeeded, and failed exactly when none has and the last one to end
      failed and was not reset since. */
  lemma RowTellsOutcome(trace: seq<Action>, k: StepKey)
    requires After(trace).Reached? && RegularRun(trace, k)
    requires k in After(trace).state.rows && After(trace).state.inFlight[k] == 0
    ensures var s := After(trace).state;
            && (s.rows[k].status.Completed? <==> s.succeeded[k] == 1)
            && (s.rows[k].status.Failed? <==> s.succeeded[k] == 0 && s.failed[k] == s.resets[k] + 1)
            && s.succeeded[k] == Finishes(trace, k, true) && s.failed[k] == Finishes(trace, k, false)
  {
    RegularShows(trace, k);
    CountersAreFinishes(trace, k);
    hide After;
  }

  /** A failed execution can be tried again: its row shows the error, a retry clears it, and the next request
      that the tier lets through starts the step once more. */
  lemma RetryStartsAgain(trace: seq<Action>, k: StepKey, error: string, again: Action)
    requires After(trace).Reached? && k in After(trace).state.inFlight
    requires again.Execute? && again.key == k && again.reply.Answered? && !again.tier.External?
    requires (again.tier.Remediate? ==> again.confirmed) && (again.tier.Dangerous? ==> again.authorised)
    ensures var s := After(trace).state;
            var failed := Next(s, Finish(k, false, error, Answered));
            var reset := Next(failed, Retry(k, Answered));
            && k in failed.rows && failed.rows[k] == RunStep(Failed, error)
            && k in reset.rows && reset.rows[k] == RunStep(Pending, "") && reset.resets[k] == s.resets[k] + 1
            && Next(reset, again).begun[k] == s.begun[k] + 1
  {
    Invariant(trace, k);
    var s := After(trace).state;
    assert k in s.rows;
    hide After, CreationInv, ExecutionInv, Next;
    FailedRow(s, k, error);
    var failed := Next(s, Finish(k, false, error, Answered));
    ResetRow(failed, k);
    StartedIff(Next(failed, Retry(k, Answered)), again, k);
  }

  lemma FailedRow(s: State, k: StepKey, error: string)
    requires k in s.inFlight && k in s.rows
    ensures var t := Next(s, Finish(k, false, error, Answered));
            && t.rows == s.rows[k := RunStep(Failed, error)] && t.begun == s.begun && t.resets == s.resets
  {
  }

  lemma ResetRow(s: State, k: StepKey)
    requires k in s.rows && s.rows[k].status.Failed?
    ensures var t := Next(s, Retry(k, Answered));
            && t.rows == s.rows[k := RunStep(Pending, "")] && t.begun == s.begun && t.resets[k] == s.resets[k] + 1
  {
  }

  /** A successful one completes its row, without an error. */
  lemma SuccessCompletes(trace: seq<Action>, k: StepKey, error: string)
    requires After(trace).Reached? && k in After(trace).state.inFlight
    ensures var done := Next(After(trace).state, Finish(k, true, error, Answered));
            k in done.rows && done.rows[k] == RunStep(Completed, "") && done.inFlight[k] == 0
  {
    Invariant(trace, k);
    hide After;
  }
}
