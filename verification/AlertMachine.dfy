/** The OK / PENDING / FIRING machine of one (rule, instance) pair (internal/alert/evaluator.go). */
module AlertMachine {
  import opened Basics

  datatype Operator = Greater | GreaterEqual | Less | LessEqual | Equal | NotEqual | Unknown

  datatype AlertState = Ok | Pending | Firing

  datatype Rule = Rule(id: string, name: string, metric: string, operator: Operator, threshold: real,
                       severity: string, labels: map<string, string>, consecutiveCount: int, channels: seq<string>)

  datatype StateEntry = StateEntry(state: AlertState, consecutiveCount: int, firedAt: int, lastNotifiedAt: int,
                                   severity: string)

  datatype AlertEvent = AlertEvent(
    ruleId: string, ruleName: string, instanceId: string, severity: string, value: real, threshold: real,
    operator: Operator, metric: string, labels: map<string, string>, channels: seq<string>,
    firedAt: int, resolvedAt: Option<int>, isResolution: bool)

  function Compare(op: Operator, value: real, threshold: real): bool {
    match op
    case Greater => value > threshold
    case GreaterEqual => value >= threshold
    case Less => value < threshold
    case LessEqual => value <= threshold
    case Equal => value == threshold
    case NotEqual => value != threshold
    case Unknown => false
  }

  function Breached(rule: Rule, pt: MetricPoint): bool { Compare(rule.operator, pt.value, rule.threshold) }

  const FreshEntry := StateEntry(Ok, 0, 0, 0, "")

  function EventFor(rule: Rule, pt: MetricPoint, firedAt: int, resolvedAt: Option<int>): AlertEvent {
    AlertEvent(rule.id, rule.name, pt.instanceId, rule.severity, pt.value, rule.threshold, rule.operator, rule.metric,
               pt.labels, rule.channels, firedAt, resolvedAt, resolvedAt.Some?)
  }

  function Fire(rule: Rule, pt: MetricPoint, entry: StateEntry, now: int): (StateEntry, Option<AlertEvent>) {
    (entry.(state := Firing, firedAt := now, lastNotifiedAt := now), Some(EventFor(rule, pt, now, None)))
  }

  function Resolve(rule: Rule, pt: MetricPoint, entry: StateEntry, now: int): (StateEntry, Option<AlertEvent>) {
    (entry.(state := Ok, consecutiveCount := 0), Some(EventFor(rule, pt, entry.firedAt, Some(now))))
  }

  /** `processTransition`: the entry afterwards and the event to record. */
  function Transition(rule: Rule, pt: MetricPoint, entry: StateEntry, now: int): (StateEntry, Option<AlertEvent>) {
    var breached := Breached(rule, pt);
    match entry.state
    case Ok =>
      if !breached then (entry, None)
      else
        var pending := entry.(state := Pending, consecutiveCount := 1, severity := rule.severity);
        if rule.consecutiveCount <= 1 then Fire(rule, pt, pending, now) else (pending, None)
    case Pending =>
      if breached then
        var counted := entry.(consecutiveCount := entry.consecutiveCount + 1);
        if counted.consecutiveCount >= rule.consecutiveCount then Fire(rule, pt, counted, now) else (counted, None)
      else (entry.(state := Ok, consecutiveCount := 0), None)
    case Firing =>
      if breached then (entry, None) else Resolve(rule, pt, entry, now)
  }

  /** What one pair's machine has seen: a point and the time of the evaluation it came in. */
  datatype Observation = Observation(pt: MetricPoint, now: int)

  ghost function EntryAfter(rule: Rule, obs: seq<Observation>): StateEntry {
    if obs == [] then FreshEntry
    else Transition(rule, obs[|obs| - 1].pt, EntryAfter(rule, obs[..|obs| - 1]), obs[|obs| - 1].now).0
  }

  /** The event raised by the last observation. */
  ghost function LastEvent(rule: Rule, obs: seq<Observation>): Option<AlertEvent>
    requires obs != []
  {
    Transition(rule, obs[|obs| - 1].pt, EntryAfter(rule, obs[..|obs| - 1]), obs[|obs| - 1].now).1
  }

  ghost function EventsOf(rule: Rule, obs: seq<Observation>): seq<AlertEvent> {
    if obs == [] then []
    else
      var e := LastEvent(rule, obs);
      EventsOf(rule, obs[..|obs| - 1]) + if e.Some? then [e.value] else []
  }

  /** The number of breaches in a row at the end of the observations. */
  ghost function BreachRun(rule: Rule, obs: seq<Observation>): nat {
    if obs == [] || !Breached(rule, obs[|obs| - 1].pt) then 0 else 1 + BreachRun(rule, obs[..|obs| - 1])
  }

  ghost function Needed(rule: Rule): nat { if rule.consecutiveCount <= 1 then 1 else rule.consecutiveCount }

  /** The state is a function of the trailing breach run. */
  lemma {:induction false} StateIsBreachRun(rule: Rule, obs: seq<Observation>)
    ensures var e, run := EntryAfter(rule, obs), BreachRun(rule, obs);
            && (e.state.Firing? <==> run >= Needed(rule))
            && (e.state.Pending? <==> 1 <= run < Needed(rule))
            && (e.state.Ok? <==> run == 0)
            && (e.state.Pending? ==> e.consecutiveCount == run)
  {
    if obs != [] { StateIsBreachRun(rule, obs[..|obs| - 1]); }
  }

  /** A fire event is raised exactly when the run reaches the required count, a resolution exactly at the
      first non-breach after a run of at least that many. */
  lemma EventIffRun(rule: Rule, obs: seq<Observation>)
    requires obs != []
    ensures var e, run, before := LastEvent(rule, obs), BreachRun(rule, obs), BreachRun(rule, obs[..|obs| - 1]);
            && (e.Some? && !e.value.isResolution <==> run == Needed(rule))
            && (e.Some? && e.value.isResolution <==> run == 0 && before >= Needed(rule))
            && (e.Some? && !e.value.isResolution ==> e.value.firedAt == obs[|obs| - 1].now)
  {
    StateIsBreachRun(rule, obs[..|obs| - 1]);
  }

  /** The run has at least n breaches exactly when the last n observations all are. */
  lemma {:induction false} RunReaches(rule: Rule, obs: seq<Observation>, n: nat)
    requires n >= 1
    ensures BreachRun(rule, obs) >= n
            <==> |obs| >= n && forall i :: |obs| - n <= i < |obs| ==> Breached(rule, obs[i].pt)
  {
    hide Breached;
    if obs != [] && Breached(rule, obs[|obs| - 1].pt) && n > 1 {
      var init := obs[..|obs| - 1];
      RunReaches(rule, init, n - 1);
      assert forall i :: 0 <= i < |init| ==> init[i] == obs[i];
    } else if |obs| >= n {
      assert obs[|obs| - 1] in obs;
    }
  }

  /** In terms of values and thresholds: which observations make an alert fire, operator by operator. */
  lemma FiringMeans(rule: Rule, obs: seq<Observation>)
    ensures var n: int := if rule.consecutiveCount <= 1 then 1 else rule.consecutiveCount;
            var t, from, firing := rule.threshold, |obs| - n, EntryAfter(rule, obs).state.Firing?;
            match rule.operator
            case Greater => firing <==> from >= 0 && forall i :: from <= i < |obs| ==> obs[i].pt.value > t
            case GreaterEqual => firing <==> from >= 0 && forall i :: from <= i < |obs| ==> obs[i].pt.value >= t
            case Less => firing <==> from >= 0 && forall i :: from <= i < |obs| ==> obs[i].pt.value < t
            case LessEqual => firing <==> from >= 0 && forall i :: from <= i < |obs| ==> obs[i].pt.value <= t
            case Equal => firing <==> from >= 0 && forall i :: from <= i < |obs| ==> obs[i].pt.value == t
            case NotEqual => firing <==> from >= 0 && forall i :: from <= i < |obs| ==> obs[i].pt.value != t
            case Unknown => !firing
  {
    StateIsBreachRun(rule, obs);
    RunReaches(rule, obs, Needed(rule));
    hide EntryAfter, BreachRun;
  }

  /** ... and which leave it OK. */
  lemma OkMeans(rule: Rule, obs: seq<Observation>)
    ensures obs == [] ==> EntryAfter(rule, obs).state.Ok?
    ensures obs != [] ==>
              var v, t, ok := obs[|obs| - 1].pt.value, rule.threshold, EntryAfter(rule, obs).state.Ok?;
              match rule.operator
              case Greater => ok <==> v <= t
              case GreaterEqual => ok <==> v < t
              case Less => ok <==> v >= t
              case LessEqual => ok <==> v > t
              case Equal => ok <==> v != t
              case NotEqual => ok <==> v == t
              case Unknown => ok
  {
    StateIsBreachRun(rule, obs);
    hide EntryAfter;
  }

  /** An event shows the rule and the point that raised it, and the time of the evaluation. */
  lemma EventCarries(rule: Rule, obs: seq<Observation>)
    requires obs != [] && LastEvent(rule, obs).Some?
    ensures var e, o := LastEvent(rule, obs).value, obs[|obs| - 1];
            && e.ruleId == rule.id && e.ruleName == rule.name && e.severity == rule.severity
            && e.threshold == rule.threshold && e.operator == rule.operator && e.metric == rule.metric
            && e.channels == rule.channels
            && e.instanceId == o.pt.instanceId && e.value == o.pt.value && e.labels == o.pt.labels
            && (if e.isResolution then e.resolvedAt == Some(o.now) else e.resolvedAt == None && e.firedAt == o.now)
  {
    hide EntryAfter;
  }

  /** A firing entry keeps the time and severity of its fire. */
  lemma {:induction false} FiringEntry(rule: Rule, obs: seq<Observation>)
    ensures var e := EntryAfter(rule, obs);
            e.state.Firing? ==> e.lastNotifiedAt == e.firedAt && e.severity == rule.severity
    ensures var e := EntryAfter(rule, obs); e.state.Pending? ==> e.severity == rule.severity
  {
    if obs != [] { FiringEntry(rule, obs[..|obs| - 1]); }
  }

  /** Fires and resolutions alternate, starting with a fire, and a resolution carries its fire's time. */
  ghost predicate WellPaired(es: seq<AlertEvent>) {
    && (forall i :: 0 <= i < |es| ==> (es[i].isResolution <==> i % 2 == 1))
    && (forall i :: 0 < i < |es| && i % 2 == 1 ==> es[i].firedAt == es[i - 1].firedAt)
  }

  /** The open fire of a log is the one the entry remembers. */
  ghost predicate OpenFire(es: seq<AlertEvent>, entry: StateEntry) {
    && (entry.state.Firing? <==> |es| % 2 == 1)
    && (entry.state.Firing? ==> es[|es| - 1].firedAt == entry.firedAt)
  }

  lemma PairedStep(es: seq<AlertEvent>, rule: Rule, pt: MetricPoint, entry: StateEntry, now: int)
    requires WellPaired(es) && OpenFire(es, entry)
    ensures var (e', ev) := Transition(rule, pt, entry, now);
            var es' := es + if ev.Some? then [ev.value] else [];
            WellPaired(es') && OpenFire(es', e')
  {
  }

  lemma {:induction false} EventsAlternate(rule: Rule, obs: seq<Observation>)
    ensures WellPaired(EventsOf(rule, obs)) && OpenFire(EventsOf(rule, obs), EntryAfter(rule, obs))
  {
    if obs != [] {
      var init, last := obs[..|obs| - 1], obs[|obs| - 1];
      EventsAlternate(rule, init);
      PairedStep(EventsOf(rule, init), rule, last.pt, EntryAfter(rule, init), last.now);
    }
  }
}
