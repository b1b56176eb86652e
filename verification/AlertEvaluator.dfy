/** The alert evaluator (internal/alert/evaluator.go): a batch of points against the loaded rules, with the
    state map and the history store updated as events occur. */
module AlertEvaluator {
  import opened Basics
  import opened AlertMachine
  import opened AlertHistory
  import opened AlertKeys

  /** A missing label reads as the empty string. */
  function LabelOf(labels: map<string, string>, k: string): string { if k in labels then labels[k] else "" }

  predicate LabelsMatch(required: map<string, string>, actual: map<string, string>) {
    forall k :: k in required ==> LabelOf(actual, k) == required[k]
  }

  /** The labels as documented: each required one is there, with its value. */
  ghost predicate LabelsPresent(required: map<string, string>, actual: map<string, string>) {
    forall k :: k in required ==> k in actual && actual[k] == required[k]
  }

  /** Matching differs from that exactly when it succeeds past a required empty label that the point lacks. */
  lemma LabelsMatchIff(required: map<string, string>, actual: map<string, string>)
    ensures LabelsPresent(required, actual) ==> LabelsMatch(required, actual)
    ensures (LabelsMatch(required, actual) <==> LabelsPresent(required, actual))
            <==> !LabelsMatch(required, actual) || forall k :: k in required && required[k] == "" ==> k in actual
  {
  }

  /** The two agree on all points exactly for the rules that require no empty label. */
  lemma LabelsMatchAlwaysIff(required: map<string, string>)
    ensures (forall actual :: LabelsMatch(required, actual) <==> LabelsPresent(required, actual))
            <==> forall k :: k in required ==> required[k] != ""
  {
    if k :| k in required && required[k] == "" {
      var actual := map j | j in required && j != k :: required[j];
      assert LabelsMatch(required, actual) && !LabelsPresent(required, actual);
    }
  }

  lemma MissingLabelMatches()
    ensures LabelsMatch(map["a" := ""], map[]) && !LabelsPresent(map["a" := ""], map[])
  {
    var required: map<string, string> := map["a" := ""];
    assert "a" in required;
  }

  predicate Matches(rule: Rule, pt: MetricPoint) { pt.metric == rule.metric && LabelsMatch(rule.labels, pt.labels) }

  /** The points a rule applies to, in batch order. */
  ghost function Matching(points: seq<MetricPoint>, rule: Rule): seq<MetricPoint> {
    if points == [] then []
    else
      var rest := Matching(points[..|points| - 1], rule);
      if Matches(rule, points[|points| - 1]) then rest + [points[|points| - 1]] else rest
  }

  datatype Item = Item(rule: Rule, pt: MetricPoint)

  ghost function ItemsFor(rule: Rule, pts: seq<MetricPoint>): (r: seq<Item>)
    ensures |r| == |pts|
  {
    seq(|pts|, i requires 0 <= i < |pts| => Item(rule, pts[i]))
  }

  /** The work of a batch: rule by rule, each rule's matching points in order. */
  ghost function Items(rules: seq<Rule>, points: seq<MetricPoint>): seq<Item> {
    if rules == [] then []
    else Items(rules[..|rules| - 1], points) + ItemsFor(rules[|rules| - 1], Matching(points, rules[|rules| - 1]))
  }

  /** State map, history rows, events emitted, and store calls made. */
  datatype Sys = Sys(state: map<string, StateEntry>, rows: seq<HistoryRow>, log: seq<AlertEvent>, calls: nat)

  function EntryAt(state: map<string, StateEntry>, key: string): StateEntry {
    if key in state then state[key] else FreshEntry
  }

  function Stored(rows: seq<HistoryRow>, ev: AlertEvent): seq<HistoryRow> {
    if ev.resolvedAt.Some? then Resolved(rows, ev.ruleId, ev.instanceId, ev.resolvedAt.value)
    else rows + [RowFor(ev)]
  }

  /** One point against one rule. A store call that fails changes no row and keeps the event from being
      returned, but the state has moved already. */
  ghost function ItemStep(s: Sys, item: Item, now: int, fails: nat -> bool): Sys {
    var key := KeyOf(item.rule.id, item.pt.instanceId, item.rule.labels);
    var (entry, ev) := Transition(item.rule, item.pt, EntryAt(s.state, key), now);
    var s' := s.(state := s.state[key := entry]);
    if ev.None? then s'
    else if fails(s.calls) then s'.(calls := s.calls + 1)
    else s'.(rows := Stored(s.rows, ev.value), log := s.log + [ev.value], calls := s.calls + 1)
  }

  ghost function EvalItems(s: Sys, items: seq<Item>, now: int, fails: nat -> bool): Sys {
    if items == [] then s
    else ItemStep(EvalItems(s, items[..|items| - 1], now, fails), items[|items| - 1], now, fails)
  }

  lemma {:induction false} EvalConcat(s: Sys, a: seq<Item>, b: seq<Item>, now: int, fails: nat -> bool)
    ensures EvalItems(s, a + b, now, fails) == EvalItems(EvalItems(s, a, now, fails), b, now, fails)
  {
    hide ItemStep;
    if b == [] {
      assert a + b == a;
    } else {
      assert (a + b)[..|a + b| - 1] == a + b[..|b| - 1];
      EvalConcat(s, a, b[..|b| - 1], now, fails);
    }
  }

  /** Which of the later store calls fail, when `c` calls have been made. */
  function FailsFrom(fails: nat -> bool, c: nat): nat -> bool { (n: nat) => fails(c + n) }

  function Later(s: Sys, earlier: seq<AlertEvent>, c: nat): Sys { s.(log := earlier + s.log, calls := c + s.calls) }

  /** Events and store calls of earlier batches only stand in front. */
  lemma {:induction false} EvalLater(s: Sys, earlier: seq<AlertEvent>, c: nat, items: seq<Item>, now: int,
                                     fails: nat -> bool)
    ensures EvalItems(Later(s, earlier, c), items, now, fails)
            == Later(EvalItems(s, items, now, FailsFrom(fails, c)), earlier, c)
  {
    if items != [] {
      EvalLater(s, earlier, c, items[..|items| - 1], now, fails);
      hide ItemStep, Later;
      var mid := EvalItems(s, items[..|items| - 1], now, FailsFrom(fails, c));
      StepLater(mid, earlier, c, items[|items| - 1], now, fails);
    }
  }

  lemma StepLater(s: Sys, earlier: seq<AlertEvent>, c: nat, item: Item, now: int, fails: nat -> bool)
    ensures ItemStep(Later(s, earlier, c), item, now, fails)
            == Later(ItemStep(s, item, now, FailsFrom(fails, c)), earlier, c)
  {
    hide KeyOf, Transition, Stored;
    assert forall ev: AlertEvent :: (earlier + s.log) + [ev] == earlier + (s.log + [ev]);
    assert FailsFrom(fails, c)(s.calls) == fails(c + s.calls);
  }

  function PointsAt(index: map<string, seq<MetricPoint>>, metric: string): seq<MetricPoint> {
    if metric in index then index[metric] else []
  }

  /** Points of one metric, in batch order. */
  ghost function OfMetric(points: seq<MetricPoint>, metric: string): seq<MetricPoint> {
    if points == [] then []
    else
      var rest := OfMetric(points[..|points| - 1], metric);
      if points[|points| - 1].metric == metric then rest + [points[|points| - 1]] else rest
  }

  method IndexPoints(points: seq<MetricPoint>) returns (index: map<string, seq<MetricPoint>>)
    ensures forall m :: PointsAt(index, m) == OfMetric(points, m)
  {
    index := map[];
    for i := 0 to |points|
      invariant forall m :: PointsAt(index, m) == OfMetric(points[..i], m)
    {
      assert points[..i + 1][..i] == points[..i];
      var p := points[i];
      index := index[p.metric := PointsAt(index, p.metric) + [p]];
    }
    assert points[..|points|] == points;
  }

  lemma {:induction false} MatchingOfMetric(points: seq<MetricPoint>, rule: Rule)
    ensures Matching(OfMetric(points, rule.metric), rule) == Matching(points, rule)
  {
    if points != [] {
      var init, p := points[..|points| - 1], points[|points| - 1];
      MatchingOfMetric(init, rule);
      var c := OfMetric(init, rule.metric);
      if p.metric == rule.metric { assert (c + [p])[..|c|] == c; }
    }
  }

  lemma {:induction false} AllMatch(points: seq<MetricPoint>, rule: Rule)
    requires rule.labels == map[] && forall i :: 0 <= i < |points| ==> points[i].metric == rule.metric
    ensures Matching(points, rule) == points
  {
    if points != [] {
      AllMatch(points[..|points| - 1], rule);
      assert points == points[..|points| - 1] + [points[|points| - 1]];
    }
  }

  lemma {:induction false} OfMetricHas(points: seq<MetricPoint>, metric: string)
    ensures forall i :: 0 <= i < |OfMetric(points, metric)| ==> OfMetric(points, metric)[i].metric == metric
  {
    if points != [] { OfMetricHas(points[..|points| - 1], metric); }
  }

  method FindMatchingPoints(ghost points: seq<MetricPoint>, index: map<string, seq<MetricPoint>>, rule: Rule)
    returns (matched: seq<MetricPoint>)
    requires forall m :: PointsAt(index, m) == OfMetric(points, m)
    ensures matched == Matching(points, rule)
  {
    MatchingOfMetric(points, rule);
    OfMetricHas(points, rule.metric);
    var candidates := PointsAt(index, rule.metric);
    if |rule.labels| == 0 {
      assert rule.labels == map[];
      AllMatch(candidates, rule);
      return candidates;
    }
    matched := [];
    for i := 0 to |candidates|
      invariant matched == Matching(candidates[..i], rule)
    {
      assert candidates[..i + 1][..i] == candidates[..i];
      if LabelsMatch(rule.labels, candidates[i].labels) {
        matched := matched + [candidates[i]];
      }
    }
    assert candidates[..|candidates|] == candidates;
  }

  class Evaluator {
    var rules: seq<Rule>
    var state: map<string, StateEntry>
    const store: HistoryStore

    constructor (store: HistoryStore)
      ensures rules == [] && state == map[] && this.store == store
    {
      this.store := store;
      rules, state := [], map[];
    }

    method LoadRules(enabled: seq<Rule>)
      modifies this`rules
      ensures rules == enabled
    {
      rules := enabled;
    }

    /** The state machine on the entry stored under `key`. */
    method ProcessTransition(rule: Rule, pt: MetricPoint, key: string, now: int) returns (event: Option<AlertEvent>)
      modifies this`state
      ensures (EntryAt(state, key), event) == Transition(rule, pt, old(EntryAt(state, key)), now)
      ensures state == old(state)[key := EntryAt(state, key)]
    {
      var breached := Compare(rule.operator, pt.value, rule.threshold);
      var entry := FreshEntry;
      if key in state {
        entry := state[key];
      }
      event := None;
      match entry.state {
        case Ok =>
          if breached {
            entry := entry.(state := Pending, consecutiveCount := 1, severity := rule.severity);
            if rule.consecutiveCount <= 1 {
              entry, event := FireAlert(rule, pt, entry, now);
            }
          }
        case Pending =>
          if breached {
            entry := entry.(consecutiveCount := entry.consecutiveCount + 1);
            if entry.consecutiveCount >= rule.consecutiveCount {
              entry, event := FireAlert(rule, pt, entry, now);
            }
          } else {
            entry := entry.(state := Ok, consecutiveCount := 0);
          }
        case Firing =>
          if !breached {
            event := Some(EventFor(rule, pt, entry.firedAt, Some(now)));
            entry := entry.(state := Ok, consecutiveCount := 0);
          }
      }
      state := state[key := entry];
    }

    method FireAlert(rule: Rule, pt: MetricPoint, entry: StateEntry, now: int)
      returns (entry': StateEntry, event: Option<AlertEvent>)
      ensures (entry', event) == Fire(rule, pt, entry, now)
    {
      entry' := entry.(state := Firing, firedAt := now, lastNotifiedAt := now);
      event := Some(EventFor(rule, pt, now, None));
    }

    method RecordEvent(ev: AlertEvent)
      modifies store
      ensures store.rows == Stored(old(store.rows), ev)
    {
      if ev.resolvedAt.Some? {
        store.Resolve(ev.ruleId, ev.instanceId, ev.resolvedAt.value);
      } else {
        store.Record(ev);
      }
    }

    /** One matched point: move the machine, then store and emit the event. */
    method HandlePoint(rule: Rule, pt: MetricPoint, now: int, fails: nat -> bool, events: seq<AlertEvent>, calls: nat)
      returns (events': seq<AlertEvent>, calls': nat)
      modifies this`state, store
      ensures Sys(state, store.rows, events', calls')
              == ItemStep(Sys(old(state), old(store.rows), events, calls), Item(rule, pt), now, fails)
    {
      events', calls' := events, calls;
      var key := StateKeyWithLabels(rule.id, pt.instanceId, rule.labels);
      hide KeyOf;
      var event := ProcessTransition(rule, pt, key, now);
      if event.Some? {
        if !fails(calls) {
          RecordEvent(event.value);
          events' := events + [event.value];
        }
        calls' := calls + 1;
      }
    }

    /** The points of one rule, in order. */
    method HandlePoints(rule: Rule, matched: seq<MetricPoint>, now: int, fails: nat -> bool, events: seq<AlertEvent>,
                        calls: nat)
      returns (events': seq<AlertEvent>, calls': nat)
      modifies this`state, store
      ensures Sys(state, store.rows, events', calls')
              == EvalItems(Sys(old(state), old(store.rows), events, calls), ItemsFor(rule, matched), now, fails)
    {
      hide ItemStep;
      ghost var before, work := Sys(state, store.rows, events, calls), ItemsFor(rule, matched);
      events', calls' := events, calls;
      for j := 0 to |matched|
        invariant Sys(state, store.rows, events', calls') == EvalItems(before, work[..j], now, fails)
      {
        assert work[..j + 1][..j] == work[..j];
        events', calls' := HandlePoint(rule, matched[j], now, fails, events', calls');
      }
      assert work[..|matched|] == work;
    }

    method Evaluate(points: seq<MetricPoint>, now: int, fails: nat -> bool)
      returns (events: seq<AlertEvent>, calls: nat)
      modifies this`state, store
      ensures Sys(state, store.rows, events, calls)
              == EvalItems(Sys(old(state), old(store.rows), [], 0), Items(rules, points), now, fails)
    {
      ghost var before := Sys(state, store.rows, [], 0);
      events, calls := [], 0;
      assert EvalItems(before, [], now, fails) == before;
      if |rules| == 0 || |points| == 0 {
        NothingToDo(rules, points);
        return;
      }
      var index := IndexPoints(points);
      NothingToDo(rules[..0], points);
      hide EvalItems, Items, ItemsFor, Matching, OfMetric, PointsAt;
      for i := 0 to |rules|
        invariant Sys(state, store.rows, events, calls) == EvalItems(before, Items(rules[..i], points), now, fails)
      {
        var rule := rules[i];
        var matched := FindMatchingPoints(points, index, rule);
        events, calls := HandlePoints(rule, matched, now, fails, events, calls);
        EvalConcat(before, Items(rules[..i], points), ItemsFor(rule, matched), now, fails);
        ItemsSnoc(rules, i, points);
      }
      assert rules[..|rules|] == rules;
    }

    /** Seeds the state of a fresh process from the unresolved history; a query that fails leaves it alone. */
    method RestoreState(fails: bool) returns (ok: bool)
      modifies this`state
      ensures ok == !fails
      ensures if fails then state == old(state)
              else exists events :: IsListing(events, store.rows) && state == Seeded(old(state), events)
    {
      if fails {
        return false;
      }
      var events := store.ListUnresolved();
      for i := 0 to |events|
        invariant state == Seeded(old(state), events[..i])
      {
        assert events[..i + 1][..i] == events[..i];
        var ev := events[i];
        var key := ev.ruleId + ":" + ev.instanceId;
        state := state[key := StateEntry(Firing, 0, ev.firedAt, ev.firedAt, ev.severity)];
      }
      assert events[..|events|] == events;
      assert IsListing(events, store.rows);
      return true;
    }
  }

  /** A possible answer of the unresolved query. */
  ghost predicate IsListing(events: seq<HistoryRow>, rows: seq<HistoryRow>) {
    multiset(events) == multiset(Unresolved(rows))
  }

  ghost function Seeded(state: map<string, StateEntry>, events: seq<HistoryRow>): map<string, StateEntry> {
    if events == [] then state
    else
      var ev := events[|events| - 1];
      Seeded(state, events[..|events| - 1])
        [StateKey(ev.ruleId, ev.instanceId) := StateEntry(Firing, 0, ev.firedAt, ev.firedAt, ev.severity)]
  }

  lemma ItemsSnoc(rules: seq<Rule>, i: nat, points: seq<MetricPoint>)
    requires i < |rules|
    ensures Items(rules[..i + 1], points) == Items(rules[..i], points) + ItemsFor(rules[i], Matching(points, rules[i]))
  {
    assert rules[..i + 1][..i] == rules[..i];
  }

  lemma {:induction false} NothingToDo(rules: seq<Rule>, points: seq<MetricPoint>)
    requires rules == [] || points == []
    ensures Items(rules, points) == []
  {
    if rules != [] { NothingToDo(rules[..|rules| - 1], points); }
  }
}
