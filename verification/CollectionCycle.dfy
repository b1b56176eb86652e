/** The collection goroutines of one `DBRunner.Run` (internal/orchestrator/db_runner.go): the main loop, a
    counting semaphore, and counters updated under a lock, in every interleaving. */
module CollectionCycle {
  import opened Basics

  /** What the main loop does in turn: count a failed pool, or start a collector. */
  datatype Job = PoolFailure | Collect

  datatype Result = Collected | Timeout | PermissionDenied | OtherError

  datatype State = State(
    next: nat,        // jobs the main loop has dealt with
    running: nat,     // goroutines holding a slot, not counted yet
    counted: nat,     // goroutines holding a slot, counted
    finished: nat,    // goroutines that released their slot
    collected: nat, errTimeout: nat, errPerm: nat, errOther: nat)

  datatype Action = Main | Count(result: Result) | Release

  const Init := State(0, 0, 0, 0, 0, 0, 0, 0)

  /** One job per failed pool, one per collector of each pooled database. */
  ghost function Jobs(pooled: seq<bool>, collectors: nat): seq<Job> {
    if pooled == [] then []
    else Jobs(pooled[..|pooled| - 1], collectors)
         + if pooled[|pooled| - 1] then seq(collectors, _ => Collect) else [PoolFailure]
  }

  ghost predicate Enabled(s: State, a: Action, jobs: seq<Job>, slots: nat) {
    match a
    case Main => s.next < |jobs| && (jobs[s.next].Collect? ==> s.running + s.counted < slots)
    case Count(_) => s.running > 0
    case Release => s.counted > 0
  }

  ghost function Next(s: State, a: Action, jobs: seq<Job>, slots: nat): State
    requires Enabled(s, a, jobs, slots)
  {
    match a
    case Main =>
      if jobs[s.next].Collect? then s.(next := s.next + 1, running := s.running + 1)
      else s.(next := s.next + 1, errOther := s.errOther + 1)
    case Count(r) =>
      var t := s.(running := s.running - 1, counted := s.counted + 1);
      (match r
       case Collected => t.(collected := t.collected + 1)
       case Timeout => t.(errTimeout := t.errTimeout + 1)
       case PermissionDenied => t.(errPerm := t.errPerm + 1)
       case OtherError => t.(errOther := t.errOther + 1))
    case Release => s.(counted := s.counted - 1, finished := s.finished + 1)
  }

  ghost function After(trace: seq<Action>, jobs: seq<Job>, slots: nat): Outcome<State> {
    if trace == [] then Reached(Init)
    else
      var p, a := After(trace[..|trace| - 1], jobs, slots), trace[|trace| - 1];
      if p.Reached? && Enabled(p.state, a, jobs, slots) then Reached(Next(p.state, a, jobs, slots)) else Impossible
  }

  ghost function CountJobs(jobs: seq<Job>, n: nat, kind: Job): nat
    requires n <= |jobs|
  {
    if n == 0 then 0 else CountJobs(jobs, n - 1, kind) + if jobs[n - 1] == kind then 1 else 0
  }

  ghost function Total(s: State): nat { s.collected + s.errTimeout + s.errPerm + s.errOther }

  ghost predicate Balanced(s: State, jobs: seq<Job>, slots: nat) {
    && s.next <= |jobs|
    && s.running + s.counted <= slots
    && s.running + s.counted + s.finished == CountJobs(jobs, s.next, Collect)
    && Total(s) == CountJobs(jobs, s.next, PoolFailure) + s.counted + s.finished
  }

  /** In every interleaving at most `slots` collections hold a slot, and the counters account for every
      failed pool and every counted goroutine exactly once. */
  lemma {:induction false} CycleInvariant(trace: seq<Action>, jobs: seq<Job>, slots: nat)
    requires After(trace, jobs, slots).Reached?
    ensures Balanced(After(trace, jobs, slots).state, jobs, slots)
  {
    if trace != [] {
      CycleInvariant(trace[..|trace| - 1], jobs, slots);
      hide Balanced, Next, Enabled;
      BalancedStep(After(trace[..|trace| - 1], jobs, slots).state, trace[|trace| - 1], jobs, slots);
    }
  }

  lemma BalancedStep(s: State, a: Action, jobs: seq<Job>, slots: nat)
    requires Enabled(s, a, jobs, slots) && Balanced(s, jobs, slots)
    ensures Balanced(Next(s, a, jobs, slots), jobs, slots)
  {
    if a.Main? {
      assert CountJobs(jobs, s.next + 1, Collect)
          == CountJobs(jobs, s.next, Collect) + if jobs[s.next] == Collect then 1 else 0;
      assert CountJobs(jobs, s.next + 1, PoolFailure)
          == CountJobs(jobs, s.next, PoolFailure) + if jobs[s.next] == PoolFailure then 1 else 0;
    }
    hide CountJobs;
  }

  ghost predicate Done(s: State, jobs: seq<Job>) { s.next == |jobs| && s.running == 0 && s.counted == 0 }

  ghost function CountPooled(pooled: seq<bool>): nat {
    if pooled == [] then 0 else CountPooled(pooled[..|pooled| - 1]) + if pooled[|pooled| - 1] then 1 else 0
  }

  lemma {:induction false} CountConcat(a: seq<Job>, b: seq<Job>, n: nat, kind: Job)
    requires n <= |b|
    ensures CountJobs(a + b, |a| + n, kind) == CountJobs(a, |a|, kind) + CountJobs(b, n, kind)
  {
    if n == 0 { CountPrefix(a, b, |a|, kind); } else { CountConcat(a, b, n - 1, kind); }
  }

  lemma {:induction false} CountPrefix(a: seq<Job>, b: seq<Job>, n: nat, kind: Job)
    requires n <= |a|
    ensures CountJobs(a + b, n, kind) == CountJobs(a, n, kind)
  {
    if n > 0 { CountPrefix(a, b, n - 1, kind); }
  }

  lemma {:induction false} CountSame(n: nat, k: nat, kind: Job)
    requires k <= n
    ensures CountJobs(seq(n, _ => Collect), k, kind) == if kind == Collect then k else 0
  {
    if k > 0 { CountSame(n, k - 1, kind); }
  }

  lemma {:induction false} JobCounts(pooled: seq<bool>, collectors: nat)
    ensures var jobs := Jobs(pooled, collectors);
            && CountJobs(jobs, |jobs|, Collect) == collectors * CountPooled(pooled)
            && CountJobs(jobs, |jobs|, PoolFailure) == |pooled| - CountPooled(pooled)
  {
    if pooled != [] {
      var rest, p := pooled[..|pooled| - 1], CountPooled(pooled[..|pooled| - 1]);
      var init := Jobs(rest, collectors);
      JobCounts(rest, collectors);
      var last := if pooled[|pooled| - 1] then seq(collectors, _ => Collect) else [PoolFailure];
      CountConcat(init, last, |last|, Collect);
      CountConcat(init, last, |last|, PoolFailure);
      LastJobs(pooled[|pooled| - 1], collectors);
      hide CountJobs;
      OneMore(collectors, p);
    }
  }

  lemma OneMore(c: nat, p: nat)
    ensures c * (p + 1) == c * p + c && c * (p + 0) == c * p
  {
  }

  lemma LastJobs(pooled: bool, collectors: nat)
    ensures var last := if pooled then seq(collectors, _ => Collect) else [PoolFailure];
            && CountJobs(last, |last|, Collect) == (if pooled then collectors else 0)
            && CountJobs(last, |last|, PoolFailure) == if pooled then 0 else 1
  {
    if pooled {
      CountSame(collectors, collectors, Collect);
      CountSame(collectors, collectors, PoolFailure);
    }
  }

  /** When the cycle ends, successes and errors together are one per collector of each pooled database and
      one per pool that could not be created. */
  lemma CountersAddUp(trace: seq<Action>, pooled: seq<bool>, collectors: nat, slots: nat)
    requires After(trace, Jobs(pooled, collectors), slots).Reached?
    requires Done(After(trace, Jobs(pooled, collectors), slots).state, Jobs(pooled, collectors))
    ensures Total(After(trace, Jobs(pooled, collectors), slots).state)
            == collectors * CountPooled(pooled) + (|pooled| - CountPooled(pooled))
  {
    CycleInvariant(trace, Jobs(pooled, collectors), slots);
    JobCounts(pooled, collectors);
  }

  /** Steps still to take. */
  ghost function Left(s: State, jobs: seq<Job>): int { 3 * (|jobs| - s.next) + 2 * s.running + s.counted }

  /** One state: until it is done some step is possible, and every step brings the end nearer. */
  lemma StateProgress(s: State, jobs: seq<Job>, slots: nat)
    requires s.next <= |jobs| && s.running + s.counted <= slots && slots >= 1
    ensures !Done(s, jobs) ==> Enabled(s, Main, jobs, slots) || Enabled(s, Count(Collected), jobs, slots)
                               || Enabled(s, Release, jobs, slots)
    ensures forall a :: Enabled(s, a, jobs, slots) ==> 0 <= Left(Next(s, a, jobs, slots), jobs) < Left(s, jobs)
  {
  }

  /** With at least one slot the cycle never blocks for good, from wherever a run has brought it. */
  lemma CycleProgress(trace: seq<Action>, jobs: seq<Job>, slots: nat)
    requires After(trace, jobs, slots).Reached? && slots >= 1
    ensures var s := After(trace, jobs, slots).state;
            && (!Done(s, jobs) ==> Enabled(s, Main, jobs, slots) || Enabled(s, Count(Collected), jobs, slots)
                                   || Enabled(s, Release, jobs, slots))
            && (forall a :: Enabled(s, a, jobs, slots) ==> 0 <= Left(Next(s, a, jobs, slots), jobs) < Left(s, jobs))
  {
    hide After, CountJobs, Enabled, Next, Left, Done;
    CycleInvariant(trace, jobs, slots);
    StateProgress(After(trace, jobs, slots).state, jobs, slots);
  }

  /** How many goroutines reported a result. */
  ghost function Reported(trace: seq<Action>, r: Result): nat {
    if trace == [] then 0
    else Reported(trace[..|trace| - 1], r) + if trace[|trace| - 1] == Count(r) then 1 else 0
  }

  ghost function PoolFailures(jobs: seq<Job>, n: nat): nat
    requires n <= |jobs|
  {
    CountJobs(jobs, n, PoolFailure)
  }

  /** One step, seen from the counters. */
  lemma CounterStep(s: State, a: Action, jobs: seq<Job>, slots: nat)
    requires Enabled(s, a, jobs, slots) && s.next <= |jobs|
    ensures var t := Next(s, a, jobs, slots);
            && t.next <= |jobs|
            && t.collected == s.collected + (if a == Count(Collected) then 1 else 0)
            && t.errTimeout == s.errTimeout + (if a == Count(Timeout) then 1 else 0)
            && t.errPerm == s.errPerm + (if a == Count(PermissionDenied) then 1 else 0)
            && t.errOther - PoolFailures(jobs, t.next)
               == s.errOther - PoolFailures(jobs, s.next) + (if a == Count(OtherError) then 1 else 0)
  {
  }

  /** Each counter counts its own results; failed pools count as other errors. */
  lemma {:induction false} CountersAreResults(trace: seq<Action>, jobs: seq<Job>, slots: nat)
    requires After(trace, jobs, slots).Reached?
    ensures var s := After(trace, jobs, slots).state;
            && s.next <= |jobs|
            && s.collected == Reported(trace, Collected)
            && s.errTimeout == Reported(trace, Timeout)
            && s.errPerm == Reported(trace, PermissionDenied)
            && s.errOther == Reported(trace, OtherError) + PoolFailures(jobs, s.next)
  {
    if trace != [] {
      CountersAreResults(trace[..|trace| - 1], jobs, slots);
      hide Next, Enabled, PoolFailures;
      CounterStep(After(trace[..|trace| - 1], jobs, slots).state, trace[|trace| - 1], jobs, slots);
    }
  }
}
