/** The HTTP handlers of playbook runs (internal/api/playbooks.go) racing on the step rows: every
    interleaving of their store statements, where any statement may also be lost. */
module PlaybookProtocol {
  import opened Basics
  import opened PlaybookStore

  datatype Tier = Diagnostic | Remediate | Dangerous | External | OtherTier

  /** What the handler sees of a store statement: its answer, or an error after which the statement
      has been applied or not. */
  datatype Reply = Answered | Lost(applied: bool)

  datatype Action =
    | StartRun(orders: set<int>)                      // CreateRun, remembering the steps to pre-create
    | CreateStep(key: StepKey, reply: Reply)          // one turn of the pre-creation loop
    | Execute(key: StepKey, tier: Tier, confirmed: bool, authorised: bool, reply: Reply)
    | Finish(key: StepKey, success: bool, error: string, reply: Reply)
    | Skip(key: StepKey, reply: Reply)
    | Retry(key: StepKey, reply: Reply)               // also what the approve handler does
    | RequestApproval(key: StepKey, reply: Reply)

  /** The rows, the handlers in flight, and counts of what has happened to each step. */
  datatype State = State(
    rows: Rows, nextRun: int, creating: map<int, set<int>>, inFlight: multiset<StepKey>,
    begun: multiset<StepKey>, succeeded: multiset<StepKey>, failed: multiset<StepKey>, resets: multiset<StepKey>)

  const Init := State(map[], 1, map[], multiset{}, multiset{}, multiset{}, multiset{}, multiset{})

  predicate Applies(r: Reply) { r.Answered? || r.applied }

  /** An external step is acknowledged without executing anything. */
  predicate Acknowledged(a: Action)
    requires a.Execute?
  {
    a.tier.External?
  }

  /** The tier gate lets the request go on to the lock. */
  predicate Admitted(a: Action)
    requires a.Execute?
  {
    match a.tier
    case Diagnostic => true
    case Remediate => a.confirmed
    case Dangerous => a.authorised
    case External => false
    case OtherTier => true
  }

  /** A handler can only finish what is in flight, and a run's steps are each created once. */
  predicate Enabled(s: State, a: Action) {
    match a
    case CreateStep(k, _) => k.runId in s.creating && k.stepOrder in s.creating[k.runId]
    case Finish(k, _, _, _) => k in s.inFlight
    case _ => true
  }

  /** What an action does to the rows. */
  function RowsAfter(rows: Rows, a: Action): Rows {
    match a
    case StartRun(_) => rows
    case CreateStep(k, reply) => if Applies(reply) then rows[k := RunStep(Pending, "")] else rows
    case Execute(k, _, _, _, reply) =>
      if !Applies(reply) then rows
      else if Acknowledged(a) then Updated(rows, k, RunStep(Completed, ""))
      else if Admitted(a) then Locked(rows, k) else rows
    case Finish(k, success, error, reply) =>
      if Applies(reply) then Updated(rows, k, if success then RunStep(Completed, "") else RunStep(Failed, error))
      else rows
    case Skip(k, reply) => if Applies(reply) then Updated(rows, k, RunStep(Skipped, "")) else rows
    case Retry(k, reply) => if Applies(reply) then ResetForRetry(rows, k) else rows
    case RequestApproval(k, reply) => if Applies(reply) then ApprovalRequested(rows, k) else rows
  }

  function Next(s: State, a: Action): State
    requires Enabled(s, a)
  {
    var t := s.(rows := RowsAfter(s.rows, a));
    match a
    case StartRun(orders) => t.(nextRun := s.nextRun + 1, creating := s.creating[s.nextRun := orders])
    case CreateStep(k, _) => t.(creating := s.creating[k.runId := s.creating[k.runId] - {k.stepOrder}])
    case Execute(k, _, _, _, reply) =>
      if !Acknowledged(a) && Admitted(a) && reply.Answered? && CanLock(s.rows, k)
      then t.(inFlight := s.inFlight + multiset{k}, begun := s.begun + multiset{k})
      else t
    case Finish(k, success, _, _) =>
      t.(inFlight := s.inFlight - multiset{k},
         succeeded := if success then s.succeeded + multiset{k} else s.succeeded,
         failed := if success then s.failed else s.failed + multiset{k})
    case Retry(k, reply) =>
      if Applies(reply) && k in s.rows && s.rows[k].status.Failed? then t.(resets := s.resets + multiset{k}) else t
    case Skip(_, _) => t
    case RequestApproval(_, _) => t
  }

  /** The state after a run of actions, if each of them is enabled where it is taken. */
  ghost function After(trace: seq<Action>): Outcome<State> {
    if trace == [] then Reached(Init)
    else
      var p, a := After(trace[..|trace| - 1]), trace[|trace| - 1];
      if p.Reached? && Enabled(p.state, a) then Reached(Next(p.state, a)) else Impossible
  }

  /** Run ids are fresh: a step still to be created has no row yet. */
  ghost predicate CreationInv(s: State, k: StepKey) {
    && (k in s.rows ==> k.runId < s.nextRun)
    && (k.runId in s.creating ==> k.runId < s.nextRun)
    && (k.runId in s.creating && k.stepOrder in s.creating[k.runId] ==> k !in s.rows)
  }

  /** One step: nothing in flight and no success behind a row that can be locked, now or after a retry. */
  ghost predicate ExecutionInv(s: State, k: StepKey) {
    && (k !in s.rows ==> s.begun[k] == 0 && s.resets[k] == 0)
    && (k in s.rows && (Lockable(s.rows[k].status) || s.rows[k].status.Failed?) ==>
          s.inFlight[k] == 0 && s.succeeded[k] == 0)
    && s.inFlight[k] + s.succeeded[k] <= 1
    && s.begun[k] == s.inFlight[k] + s.succeeded[k] + s.failed[k]
    && s.begun[k] + (if CanLock(s.rows, k) then 1 else 0) <= 1 + s.resets[k]
  }

  lemma CreationKept(s: State, a: Action, k: StepKey)
    requires Enabled(s, a) && CreationInv(s, k)
    ensures CreationInv(Next(s, a), k)
  {
  }

  lemma FinishKeeps(s: State, a: Action, k: StepKey)
    requires a.Finish? && Enabled(s, a) && ExecutionInv(s, k)
    ensures ExecutionInv(Next(s, a), k)
  {
    if a.key == k { assert s.inFlight[k] == 1; }
  }

  lemma ExecuteKeeps(s: State, a: Action, k: StepKey)
    requires a.Execute? && ExecutionInv(s, k)
    ensures ExecutionInv(Next(s, a), k)
  {
    if a.key != k {
      assert Next(s, a).inFlight[k] == s.inFlight[k] && Next(s, a).begun[k] == s.begun[k];
    }
  }

  lemma RetryKeeps(s: State, a: Action, k: StepKey)
    requires a.Retry? && ExecutionInv(s, k)
    ensures ExecutionInv(Next(s, a), k)
  {
  }

  lemma OthersKeep(s: State, a: Action, k: StepKey)
    requires a.StartRun? || a.CreateStep? || a.Skip? || a.RequestApproval?
    requires Enabled(s, a) && CreationInv(s, k) && ExecutionInv(s, k)
    ensures ExecutionInv(Next(s, a), k)
  {
  }

  /** Every reachable state keeps the invariant, for every step. */
  lemma {:induction false} Invariant(trace: seq<Action>, k: StepKey)
    requires After(trace).Reached?
    ensures CreationInv(After(trace).state, k) && ExecutionInv(After(trace).state, k)
  {
    if trace != [] {
      var p, a := After(trace[..|trace| - 1]).state, trace[|trace| - 1];
      Invariant(trace[..|trace| - 1], k);
      CreationKept(p, a, k);
      hide Next, CreationInv, ExecutionInv;
      match a
      case Finish(_, _, _, _) => FinishKeeps(p, a, k);
      case Execute(_, _, _, _, _) => ExecuteKeeps(p, a, k);
      case Retry(_, _) => RetryKeeps(p, a, k);
      case _ => OthersKeep(p, a, k);
    }
  }

  /** In every interleaving at most one execution of a step is in flight, executions in flight and
      successes together never exceed one, and every execution beyond the first needs its own retry. */
  lemma AtMostOnce(trace: seq<Action>, k: StepKey)
    requires After(trace).Reached?
    ensures var s := After(trace).state;
            && s.inFlight[k] + s.succeeded[k] <= 1
            && s.begun[k] == s.inFlight[k] + s.succeeded[k] + s.failed[k]
            && s.begun[k] <= 1 + s.resets[k]
  {
    Invariant(trace, k);
  }

  /** After a success no request is ever let through to execution again. */
  lemma NoneAfterSuccess(trace: seq<Action>, a: Action, k: StepKey)
    requires After(trace).Reached? && Enabled(After(trace).state, a) && After(trace).state.succeeded[k] > 0
    ensures var s := After(trace).state;
            Next(s, a).begun[k] == s.begun[k] && Next(s, a).inFlight[k] == 0 && Next(s, a).succeeded[k] == 1
  {
    Invariant(trace, k);
  }
}
