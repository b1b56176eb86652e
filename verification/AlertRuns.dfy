/** What whole batches, and whole runs with restarts, make of each (rule, instance) pair. */
module AlertRuns {
  import opened Basics
  import opened AlertMachine
  import opened AlertHistory
  import opened AlertKeys
  import opened AlertEvaluator
  import opened Sorting

  /** A loaded rule set: no id with a colon, no id twice. */
  ghost predicate RuleSet(rules: seq<Rule>) {
    && (forall i :: 0 <= i < |rules| ==> ColonFree(rules[i].id))
    && (forall i, j :: 0 <= i < j < |rules| ==> rules[i].id != rules[j].id)
  }

  // ---- a batch is a set of independent machines

  ghost function FoldEntry(rule: Rule, e: StateEntry, pts: seq<MetricPoint>, now: int): StateEntry {
    if pts == [] then e
    else Transition(rule, pts[|pts| - 1], FoldEntry(rule, e, pts[..|pts| - 1], now), now).0
  }

  ghost function FoldEvents(rule: Rule, e: StateEntry, pts: seq<MetricPoint>, now: int): seq<AlertEvent> {
    if pts == [] then []
    else
      var ev := Transition(rule, pts[|pts| - 1], FoldEntry(rule, e, pts[..|pts| - 1], now), now).1;
      FoldEvents(rule, e, pts[..|pts| - 1], now) + if ev.Some? then [ev.value] else []
  }

  /** The points of a batch's work that belong to one pair. */
  ghost function PointsOf(items: seq<Item>, ruleId: string, instanceId: string): seq<MetricPoint> {
    if items == [] then []
    else
      var rest, it := PointsOf(items[..|items| - 1], ruleId, instanceId), items[|items| - 1];
      if it.rule.id == ruleId && it.pt.instanceId == instanceId then rest + [it.pt] else rest
  }

  ghost function AtInstance(pts: seq<MetricPoint>, instanceId: string): seq<MetricPoint> {
    if pts == [] then []
    else
      var rest := AtInstance(pts[..|pts| - 1], instanceId);
      if pts[|pts| - 1].instanceId == instanceId then rest + [pts[|pts| - 1]] else rest
  }

  ghost function EventsFor(log: seq<AlertEvent>, ruleId: string, instanceId: string): seq<AlertEvent> {
    if log == [] then []
    else
      var rest, ev := EventsFor(log[..|log| - 1], ruleId, instanceId), log[|log| - 1];
      if ev.ruleId == ruleId && ev.instanceId == instanceId then rest + [ev] else rest
  }

  lemma EventsSnoc(log: seq<AlertEvent>, ev: AlertEvent, r: string, i: string)
    ensures EventsFor(log + [ev], r, i)
            == if ev.ruleId == r && ev.instanceId == i then EventsFor(log, r, i) + [ev] else EventsFor(log, r, i)
  {
    assert (log + [ev])[..|log|] == log;
  }

  /** Every item of the work comes from the one rule that has its id. */
  ghost predicate ItemsFrom(items: seq<Item>, rule: Rule) {
    forall i :: 0 <= i < |items| ==>
      ColonFree(items[i].rule.id) && (items[i].rule.id == rule.id ==> items[i].rule == rule)
  }

  function Never(n: nat): bool { false }

  function Always(n: nat): bool { true }

  /** The event of a transition names its rule and instance. */
  lemma EventNames(rule: Rule, pt: MetricPoint, e: StateEntry, now: int)
    ensures var ev := Transition(rule, pt, e, now).1;
            ev.Some? ==> ev.value.ruleId == rule.id && ev.value.instanceId == pt.instanceId
  {
  }

  lemma StepOther(s: Sys, item: Item, rule: Rule, inst: string, now: int, fails: nat -> bool)
    requires ColonFree(rule.id) && ColonFree(item.rule.id) && (item.rule.id == rule.id ==> item.rule == rule)
    requires !(item.rule.id == rule.id && item.pt.instanceId == inst)
    ensures var key, s' := KeyOf(rule.id, inst, rule.labels), ItemStep(s, item, now, fails);
            && (key in s'.state <==> key in s.state) && EntryAt(s'.state, key) == EntryAt(s.state, key)
            && EventsFor(s'.log, rule.id, inst) == EventsFor(s.log, rule.id, inst)
  {
    var key, key' := KeyOf(rule.id, inst, rule.labels), KeyOf(item.rule.id, item.pt.instanceId, item.rule.labels);
    if key == key' { KeyInjective(rule.id, inst, rule.labels, item.rule.id, item.pt.instanceId, item.rule.labels); }
    var e, ev := ItemShape(s, item, now, fails);
    hide ItemStep, KeyOf;
    if ev.Some? { EventsSnoc(s.log, ev.value, rule.id, inst); }
  }

  /** A step writes one key and adds at most one event, which names the item's rule and instance. */
  lemma ItemShape(s: Sys, item: Item, now: int, fails: nat -> bool) returns (e: StateEntry, ev: Option<AlertEvent>)
    ensures ItemStep(s, item, now, fails).state
            == s.state[KeyOf(item.rule.id, item.pt.instanceId, item.rule.labels) := e]
    ensures ItemStep(s, item, now, fails).log == if ev.Some? then s.log + [ev.value] else s.log
    ensures ev.Some? ==> ev.value.ruleId == item.rule.id && ev.value.instanceId == item.pt.instanceId
  {
    hide KeyOf;
    var key := KeyOf(item.rule.id, item.pt.instanceId, item.rule.labels);
    var t := Transition(item.rule, item.pt, EntryAt(s.state, key), now);
    EventNames(item.rule, item.pt, EntryAt(s.state, key), now);
    e, ev := t.0, if fails(s.calls) then None else t.1;
  }

  lemma StepOwn(s: Sys, pt: MetricPoint, rule: Rule, now: int, fails: nat -> bool)
    ensures var key, s' := KeyOf(rule.id, pt.instanceId, rule.labels), ItemStep(s, Item(rule, pt), now, fails);
            var (e', ev) := Transition(rule, pt, EntryAt(s.state, key), now);
            && key in s'.state && EntryAt(s'.state, key) == e'
            && (!fails(s.calls) ==>
                  EventsFor(s'.log, rule.id, pt.instanceId)
                  == EventsFor(s.log, rule.id, pt.instanceId) + if ev.Some? then [ev.value] else [])
  {
    hide KeyOf;
    var key := KeyOf(rule.id, pt.instanceId, rule.labels);
    var ev := Transition(rule, pt, EntryAt(s.state, key), now).1;
    EventNames(rule, pt, EntryAt(s.state, key), now);
    if ev.Some? { EventsSnoc(s.log, ev.value, rule.id, pt.instanceId); }
  }

  /** From `s` to `s'` the pair has gone through `pts` as its own machine would, and so have its events when
      no store call failed. */
  ghost predicate Projected(s: Sys, s': Sys, rule: Rule, inst: string, pts: seq<MetricPoint>, now: int, sound: bool) {
    var key := KeyOf(rule.id, inst, rule.labels);
    && EntryAt(s'.state, key) == FoldEntry(rule, EntryAt(s.state, key), pts, now)
    && (key in s'.state <==> key in s.state || pts != [])
    && (sound ==>
          EventsFor(s'.log, rule.id, inst)
          == EventsFor(s.log, rule.id, inst) + FoldEvents(rule, EntryAt(s.state, key), pts, now))
  }

  lemma ProjectOwn(s: Sys, mid: Sys, pt: MetricPoint, rule: Rule, pts: seq<MetricPoint>, now: int,
                   fails: nat -> bool, sound: bool)
    requires Projected(s, mid, rule, pt.instanceId, pts, now, sound) && (sound ==> !fails(mid.calls))
    ensures Projected(s, ItemStep(mid, Item(rule, pt), now, fails), rule, pt.instanceId, pts + [pt], now, sound)
  {
    hide KeyOf, ItemStep, Transition, EventsFor;
    StepOwn(mid, pt, rule, now, fails);
    assert (pts + [pt])[..|pts|] == pts;
  }

  lemma ProjectOther(s: Sys, mid: Sys, item: Item, rule: Rule, inst: string, pts: seq<MetricPoint>, now: int,
                     fails: nat -> bool, sound: bool)
    requires Projected(s, mid, rule, inst, pts, now, sound)
    requires ColonFree(rule.id) && ColonFree(item.rule.id) && (item.rule.id == rule.id ==> item.rule == rule)
    requires !(item.rule.id == rule.id && item.pt.instanceId == inst)
    ensures Projected(s, ItemStep(mid, item, now, fails), rule, inst, pts, now, sound)
  {
    hide KeyOf, ItemStep, FoldEntry, FoldEvents, EventsFor, ColonFree;
    StepOther(mid, item, rule, inst, now, fails);
  }

  lemma {:induction false} ItemsProject(s: Sys, items: seq<Item>, rule: Rule, inst: string, now: int,
                                        fails: nat -> bool)
    requires ColonFree(rule.id) && ItemsFrom(items, rule)
    ensures Projected(s, EvalItems(s, items, now, fails), rule, inst, PointsOf(items, rule.id, inst), now,
                      forall n :: !fails(n))
  {
    var sound := forall n :: !fails(n);
    if items != [] {
      var init, it := items[..|items| - 1], items[|items| - 1];
      ItemsProject(s, init, rule, inst, now, fails);
      hide Projected, ItemStep, ColonFree;
      var mid := EvalItems(s, init, now, fails);
      if it.rule.id == rule.id && it.pt.instanceId == inst {
        ProjectOwn(s, mid, it.pt, rule, PointsOf(init, rule.id, inst), now, fails, sound);
      } else {
        ProjectOther(s, mid, it, rule, inst, PointsOf(init, rule.id, inst), now, fails, sound);
      }
    }
  }

  lemma {:induction false} PointsOfConcat(a: seq<Item>, b: seq<Item>, r: string, i: string)
    ensures PointsOf(a + b, r, i) == PointsOf(a, r, i) + PointsOf(b, r, i)
  {
    if b == [] {
      assert a + b == a;
    } else {
      assert (a + b)[..|a + b| - 1] == a + b[..|b| - 1];
      PointsOfConcat(a, b[..|b| - 1], r, i);
    }
  }

  lemma {:induction false} PointsOfRule(rule: Rule, pts: seq<MetricPoint>, r: string, i: string)
    ensures PointsOf(ItemsFor(rule, pts), r, i) == if rule.id == r then AtInstance(pts, i) else []
  {
    if pts != [] {
      assert ItemsFor(rule, pts)[..|pts| - 1] == ItemsFor(rule, pts[..|pts| - 1]);
      PointsOfRule(rule, pts[..|pts| - 1], r, i);
    }
  }

  /** The work that one more rule adds to a pair. */
  lemma PointsSnoc(rules: seq<Rule>, points: seq<MetricPoint>, r: string, i: string)
    requires rules != []
    ensures var init, last := rules[..|rules| - 1], rules[|rules| - 1];
            PointsOf(Items(rules, points), r, i)
            == if last.id == r then PointsOf(Items(init, points), r, i) + AtInstance(Matching(points, last), i)
               else PointsOf(Items(init, points), r, i)
  {
    var init, last := rules[..|rules| - 1], rules[|rules| - 1];
    hide PointsOf, AtInstance, Matching, ItemsFor;
    PointsOfConcat(Items(init, points), ItemsFor(last, Matching(points, last)), r, i);
    PointsOfRule(last, Matching(points, last), r, i);
    assert PointsOf(Items(init, points), r, i) + [] == PointsOf(Items(init, points), r, i);
  }

  lemma {:induction false} NoPointsOf(rules: seq<Rule>, points: seq<MetricPoint>, r: string, i: string)
    requires forall n :: 0 <= n < |rules| ==> rules[n].id != r
    ensures PointsOf(Items(rules, points), r, i) == []
  {
    if rules != [] {
      NoPointsOf(rules[..|rules| - 1], points, r, i);
      hide PointsOf, Items;
      PointsSnoc(rules, points, r, i);
    }
  }

  /** The work of a pair is its rule's matching points at its instance, in batch order. */
  lemma {:induction false} PointsOfItems(rules: seq<Rule>, points: seq<MetricPoint>, k: nat, i: string)
    requires RuleSet(rules) && k < |rules|
    ensures PointsOf(Items(rules, points), rules[k].id, i) == AtInstance(Matching(points, rules[k]), i)
  {
    var init := rules[..|rules| - 1];
    hide PointsOf, Items, AtInstance, Matching, ColonFree;
    PointsSnoc(rules, points, rules[k].id, i);
    if k == |rules| - 1 {
      NoPointsOf(init, points, rules[k].id, i);
      assert [] + AtInstance(Matching(points, rules[k]), i) == AtInstance(Matching(points, rules[k]), i);
    } else {
      PointsOfItems(init, points, k, i);
    }
  }

  lemma {:induction false} ItemsAreFrom(rules: seq<Rule>, points: seq<MetricPoint>, rule: Rule)
    requires RuleSet(rules) && rule in rules
    ensures ItemsFrom(Items(rules, points), rule)
  {
    forall n | 0 <= n < |Items(rules, points)|
      ensures ColonFree(Items(rules, points)[n].rule.id)
              && (Items(rules, points)[n].rule.id == rule.id ==> Items(rules, points)[n].rule == rule)
    {
      ItemRuleLoaded(rules, points, n);
      var r := Items(rules, points)[n].rule;
      var j :| 0 <= j < |rules| && rules[j] == r;
      var k :| 0 <= k < |rules| && rules[k] == rule;
    }
  }

  lemma {:induction false} ItemRuleLoaded(rules: seq<Rule>, points: seq<MetricPoint>, n: nat)
    requires n < |Items(rules, points)|
    ensures Items(rules, points)[n].rule in rules
  {
    var init, last := rules[..|rules| - 1], rules[|rules| - 1];
    if n < |Items(init, points)| { ItemRuleLoaded(init, points, n); }
  }

  /** A batch moves every (rule, instance) exactly as that pair's own machine run over its own matching
      points, whatever other rules and instances the batch holds. */
  lemma BatchProjects(s: Sys, rules: seq<Rule>, points: seq<MetricPoint>, rule: Rule, inst: string, now: int,
                      fails: nat -> bool)
    requires RuleSet(rules) && rule in rules
    ensures var key, s' := KeyOf(rule.id, inst, rule.labels), EvalItems(s, Items(rules, points), now, fails);
            var pts := AtInstance(Matching(points, rule), inst);
            && EntryAt(s'.state, key) == FoldEntry(rule, EntryAt(s.state, key), pts, now)
            && (key in s'.state <==> key in s.state || pts != [])
            && ((forall n :: !fails(n)) ==>
                  EventsFor(s'.log, rule.id, inst)
                  == EventsFor(s.log, rule.id, inst) + FoldEvents(rule, EntryAt(s.state, key), pts, now))
  {
    ItemsAreFrom(rules, points, rule);
    var k :| 0 <= k < |rules| && rules[k] == rule;
    PointsOfItems(rules, points, k, inst);
    hide EvalItems, KeyOf, Items, Matching, RuleSet;
    ItemsProject(s, Items(rules, points), rule, inst, now, fails);
  }

  // ---- runs with restarts

  datatype Action =
    | Evaluate(rules: seq<Rule>, points: seq<MetricPoint>, now: int)
    | Cleanup(cutoff: int)
    | Restart(listing: seq<HistoryRow>)  // a fresh process, seeded by the answer of the unresolved query

  ghost predicate LabelFree(rules: seq<Rule>) { forall i :: 0 <= i < |rules| ==> rules[i].labels == map[] }

  ghost predicate Possible(s: Sys, a: Action) {
    match a
    case Evaluate(rules, _, _) => RuleSet(rules) && LabelFree(rules)
    case Cleanup(_) => true
    case Restart(listing) => IsListing(listing, s.rows)
  }

  /** One action, every store call succeeding. */
  ghost function NextSys(s: Sys, a: Action): Sys {
    match a
    case Evaluate(rules, points, now) => EvalItems(s, Items(rules, points), now, Never)
    case Cleanup(cutoff) => s.(rows := Cleaned(s.rows, cutoff))
    case Restart(listing) => s.(state := Seeded(map[], listing))
  }

  ghost function After(trace: seq<Action>): Outcome<Sys> {
    if trace == [] then Reached(Sys(map[], [], [], 0))
    else
      var p, a := After(trace[..|trace| - 1]), trace[|trace| - 1];
      if p.Reached? && Possible(p.state, a) then Reached(NextSys(p.state, a)) else Impossible
  }

  /** The state of a pair says what its open rows and its emitted events say. */
  ghost predicate Agrees(entry: StateEntry, open: seq<HistoryRow>, events: seq<AlertEvent>) {
    && (entry.state.Firing? <==> |open| == 1)
    && (!entry.state.Firing? <==> open == [])
    && (entry.state.Firing? ==> open[0].firedAt == entry.firedAt)
    && WellPaired(events) && OpenFire(events, entry)
  }

  ghost predicate PairAgrees(s: Sys, r: string, i: string) {
    Agrees(EntryAt(s.state, StateKey(r, i)), Open(s.rows, r, i), EventsFor(s.log, r, i))
  }

  ghost predicate ColonFreeRows(rows: seq<HistoryRow>) { forall i :: 0 <= i < |rows| ==> ColonFree(rows[i].ruleId) }

  lemma OpenStored(rows: seq<HistoryRow>, ev: AlertEvent, r: string, i: string)
    ensures Open(Stored(rows, ev), r, i)
            == if ev.ruleId == r && ev.instanceId == i
               then (if ev.resolvedAt.Some? then [] else Open(rows, r, i) + [RowFor(ev)])
               else Open(rows, r, i)
  {
    if ev.resolvedAt.Some? {
      OpenResolved(rows, ev.ruleId, ev.instanceId, ev.resolvedAt.value, r, i);
    } else {
      OpenSnoc(rows, RowFor(ev), r, i);
    }
  }

  lemma StoredColonFree(rows: seq<HistoryRow>, ev: AlertEvent)
    requires ColonFreeRows(rows) && ColonFree(ev.ruleId)
    ensures ColonFreeRows(Stored(rows, ev))
  {
  }

  /** One transition of the pair's own machine keeps the agreement when its event is stored, and only then. */
  lemma AgreesStep(rule: Rule, pt: MetricPoint, entry: StateEntry, open: seq<HistoryRow>, events: seq<AlertEvent>,
                   now: int)
    requires Agrees(entry, open, events)
    ensures var (e', ev) := Transition(rule, pt, entry, now);
            if ev.None? then Agrees(e', open, events)
            else
              && Agrees(e', if ev.value.resolvedAt.Some? then [] else open + [RowFor(ev.value)], events + [ev.value])
              && !Agrees(e', open, events)
  {
    PairedStep(events, rule, pt, entry, now);
    assert events + [] == events;
  }

  lemma ItemKeepsOwn(s: Sys, rule: Rule, pt: MetricPoint, now: int, fails: nat -> bool)
    requires ColonFree(rule.id) && rule.labels == map[] && PairAgrees(s, rule.id, pt.instanceId)
    ensures PairAgrees(ItemStep(s, Item(rule, pt), now, fails), rule.id, pt.instanceId)
            <==> Transition(rule, pt, EntryAt(s.state, StateKey(rule.id, pt.instanceId)), now).1.None?
                 || !fails(s.calls)
  {
    var key := StateKey(rule.id, pt.instanceId);
    LabelFreeKey(rule.id, pt.instanceId);
    hide KeyOf, StateKey;
    var (e', ev) := Transition(rule, pt, EntryAt(s.state, key), now);
    EventNames(rule, pt, EntryAt(s.state, key), now);
    AgreesStep(rule, pt, EntryAt(s.state, key), Open(s.rows, rule.id, pt.instanceId),
               EventsFor(s.log, rule.id, pt.instanceId), now);
    if ev.Some? {
      OpenStored(s.rows, ev.value, rule.id, pt.instanceId);
      EventsSnoc(s.log, ev.value, rule.id, pt.instanceId);
    }
    hide Transition, Agrees, Stored, Open, EventsFor;
  }

  /** The first breach of a new rule, its record refused: the state fires and the history knows nothing of it. */
  lemma RefusedStoreParts(r: string, i: string)
    requires ColonFree(r)
    ensures var rule := Rule(r, "", "m", Greater, 0.0, "warning", map[], 1, []);
            var pt, s := MetricPoint(i, "m", 1.0, map[], 1), Sys(map[], [], [], 0);
            && PairAgrees(s, r, i) && !PairAgrees(ItemStep(s, Item(rule, pt), 1, Always), r, i)
  {
    var rule := Rule(r, "", "m", Greater, 0.0, "warning", map[], 1, []);
    var pt, s := MetricPoint(i, "m", 1.0, map[], 1), Sys(map[], [], [], 0);
    assert PairAgrees(s, r, i);
    assert Transition(rule, pt, FreshEntry, 1).1.Some?;
    hide ItemStep, PairAgrees, Transition;
    ItemKeepsOwn(s, rule, pt, 1, Always);
  }

  lemma ItemKeepsOther(s: Sys, item: Item, now: int, fails: nat -> bool, r: string, i: string)
    requires ColonFree(item.rule.id) && item.rule.labels == map[] && ColonFree(r)
    requires !(item.rule.id == r && item.pt.instanceId == i)
    ensures var s' := ItemStep(s, item, now, fails);
            && EntryAt(s'.state, StateKey(r, i)) == EntryAt(s.state, StateKey(r, i))
            && Open(s'.rows, r, i) == Open(s.rows, r, i) && EventsFor(s'.log, r, i) == EventsFor(s.log, r, i)
  {
    var key := StateKey(item.rule.id, item.pt.instanceId);
    LabelFreeKey(item.rule.id, item.pt.instanceId);
    if key == StateKey(r, i) { StateKeyInjective(r, i, item.rule.id, item.pt.instanceId); }
    hide KeyOf, StateKey;
    var ev := Transition(item.rule, item.pt, EntryAt(s.state, key), now).1;
    EventNames(item.rule, item.pt, EntryAt(s.state, key), now);
    if ev.Some? {
      OpenStored(s.rows, ev.value, r, i);
      EventsSnoc(s.log, ev.value, r, i);
    }
    hide Transition, Stored, Open, EventsFor;
  }

  lemma ItemKeepsColonFree(s: Sys, item: Item, now: int, fails: nat -> bool)
    requires ColonFree(item.rule.id) && ColonFreeRows(s.rows)
    ensures ColonFreeRows(ItemStep(s, item, now, fails).rows)
  {
    hide KeyOf;
    var key := KeyOf(item.rule.id, item.pt.instanceId, item.rule.labels);
    var ev := Transition(item.rule, item.pt, EntryAt(s.state, key), now).1;
    EventNames(item.rule, item.pt, EntryAt(s.state, key), now);
    if ev.Some? { StoredColonFree(s.rows, ev.value); }
    hide Transition, Stored, ColonFreeRows;
  }

  lemma {:induction false} EvalKeeps(s: Sys, items: seq<Item>, now: int, r: string, i: string)
    requires forall n :: 0 <= n < |items| ==> ColonFree(items[n].rule.id) && items[n].rule.labels == map[]
    requires ColonFree(r) && ColonFreeRows(s.rows) && PairAgrees(s, r, i)
    ensures ColonFreeRows(EvalItems(s, items, now, Never).rows) && PairAgrees(EvalItems(s, items, now, Never), r, i)
  {
    if items != [] {
      var it := items[|items| - 1];
      EvalKeeps(s, items[..|items| - 1], now, r, i);
      var mid := EvalItems(s, items[..|items| - 1], now, Never);
      hide ItemStep, ColonFreeRows;
      ItemKeepsColonFree(mid, it, now, Never);
      if it.rule.id == r && it.pt.instanceId == i {
        ItemKeepsOwn(mid, it.rule, it.pt, now, Never);
      } else {
        ItemKeepsOther(mid, it, now, Never, r, i);
      }
    }
  }

  lemma {:induction false} SeededAt(events: seq<HistoryRow>, r: string, i: string, f: int)
    requires ColonFree(r) && forall n :: 0 <= n < |events| ==> ColonFree(events[n].ruleId)
    requires forall n :: 0 <= n < |events| && events[n].ruleId == r && events[n].instanceId == i ==>
               events[n].firedAt == f
    ensures var e := EntryAt(Seeded(map[], events), StateKey(r, i));
            if exists n :: 0 <= n < |events| && events[n].ruleId == r && events[n].instanceId == i
            then e.state.Firing? && e.firedAt == f
            else e == FreshEntry
  {
    if events != [] {
      var init, last := events[..|events| - 1], events[|events| - 1];
      SeededAt(init, r, i, f);
      if StateKey(last.ruleId, last.instanceId) == StateKey(r, i) {
        StateKeyInjective(last.ruleId, last.instanceId, r, i);
      }
      hide StateKey;
      if n :| 0 <= n < |events| && events[n].ruleId == r && events[n].instanceId == i {
        if n < |init| { assert init[n] == events[n]; }
      }
    }
  }

  /** A restored entry is a row's: its fire time, also as the time of the last notice, and its severity. */
  lemma {:induction false} SeededFrom(events: seq<HistoryRow>, key: string)
    requires key in Seeded(map[], events)
    ensures exists n :: 0 <= n < |events| && StateKey(events[n].ruleId, events[n].instanceId) == key
              && var e := Seeded(map[], events)[key];
                 e.state.Firing? && e.firedAt == events[n].firedAt && e.lastNotifiedAt == events[n].firedAt
                 && e.severity == events[n].severity && e.consecutiveCount == 0
  {
    hide StateKey;
    var init, last := events[..|events| - 1], events[|events| - 1];
    if StateKey(last.ruleId, last.instanceId) != key {
      SeededFrom(init, key);
      var n :| 0 <= n < |init| && StateKey(init[n].ruleId, init[n].instanceId) == key
               && var e := Seeded(map[], init)[key];
                  e.state.Firing? && e.firedAt == init[n].firedAt && e.lastNotifiedAt == init[n].firedAt
                  && e.severity == init[n].severity && e.consecutiveCount == 0;
      assert events[n] == init[n];
    }
  }

  /** Restarting keeps the agreement: what fires afterwards is what has an open row, with its fire time. */
  lemma RestartKeeps(s: Sys, listing: seq<HistoryRow>, r: string, i: string)
    requires ColonFree(r) && ColonFreeRows(s.rows) && IsListing(listing, s.rows) && PairAgrees(s, r, i)
    ensures PairAgrees(s.(state := Seeded(map[], listing)), r, i)
  {
    var open, entry := Open(s.rows, r, i), EntryAt(s.state, StateKey(r, i));
    var entry' := EntryAt(Seeded(map[], listing), StateKey(r, i));
    SamePermutation(listing, Unresolved(s.rows));
    forall n | 0 <= n < |listing|
      ensures listing[n] in s.rows && listing[n].resolvedAt.None?
      ensures listing[n].ruleId == r && listing[n].instanceId == i ==> listing[n] in open
    {
      assert listing[n] in listing;
      UnresolvedMembers(s.rows, listing[n]);
      OpenMembers(s.rows, r, i, listing[n]);
    }
    SeededAt(listing, r, i, entry.firedAt);
    if entry.state.Firing? {
      assert open[0] in open;
      OpenMembers(s.rows, r, i, open[0]);
      UnresolvedMembers(s.rows, open[0]);
      assert open[0] in listing;
      var n :| 0 <= n < |listing| && listing[n] == open[0];
    }
  }

  // A rule with labels keeps its state under a longer key, and a restart does not find it.

  ghost predicate LabelledAgrees(s: Sys, rule: Rule, i: string) {
    Agrees(EntryAt(s.state, KeyOf(rule.id, i, rule.labels)), Open(s.rows, rule.id, i), EventsFor(s.log, rule.id, i))
  }

  lemma {:induction false} SeededElsewhere(events: seq<HistoryRow>, key: string)
    requires forall n :: 0 <= n < |events| ==> StateKey(events[n].ruleId, events[n].instanceId) != key
    ensures key !in Seeded(map[], events)
  {
    if events != [] { SeededElsewhere(events[..|events| - 1], key); }
  }

  /** When no open row belongs to a pair whose own key is this one, a restart keeps the agreement of the pair
      exactly when it was not firing. */
  lemma LabelledRestartIff(s: Sys, listing: seq<HistoryRow>, rule: Rule, i: string)
    requires LabelledAgrees(s, rule, i) && IsListing(listing, s.rows)
    requires forall n :: 0 <= n < |listing| ==>
               StateKey(listing[n].ruleId, listing[n].instanceId) != KeyOf(rule.id, i, rule.labels)
    ensures LabelledAgrees(s.(state := Seeded(map[], listing)), rule, i)
            <==> !EntryAt(s.state, KeyOf(rule.id, i, rule.labels)).state.Firing?
  {
    hide KeyOf, StateKey, Seeded, Open, EventsFor;
    SeededElsewhere(listing, KeyOf(rule.id, i, rule.labels));
  }

  /** The first alert of any labelled rule: after a restart its row is still open and its state OK. */
  lemma LabelledRestartForgets(rule: Rule, k: string, pt: MetricPoint, now: int)
    requires k in rule.labels && rule.consecutiveCount <= 1 && Breached(rule, pt)
    ensures var s := ItemStep(Sys(map[], [], [], 0), Item(rule, pt), now, Never);
            && LabelledAgrees(s, rule, pt.instanceId) && IsListing(s.rows, s.rows)
            && !LabelledAgrees(s.(state := Seeded(map[], s.rows)), rule, pt.instanceId)
  {
    hide KeyOf, StateKey, ItemStep, Seeded, LabelledAgrees, Unresolved, Breached;
    LabelLengthens(rule.id, pt.instanceId, rule.labels, k);
    FirstFire(rule, pt, now);
    var s := ItemStep(Sys(map[], [], [], 0), Item(rule, pt), now, Never);
    LabelledRestartIff(s, s.rows, rule, pt.instanceId);
  }

  /** The first breach of a rule that needs one. */
  lemma FirstFire(rule: Rule, pt: MetricPoint, now: int)
    requires Breached(rule, pt) && rule.consecutiveCount <= 1
    ensures var s := ItemStep(Sys(map[], [], [], 0), Item(rule, pt), now, Never);
            && s.rows == [RowFor(EventFor(rule, pt, now, None))] && Unresolved(s.rows) == s.rows
            && LabelledAgrees(s, rule, pt.instanceId)
            && EntryAt(s.state, KeyOf(rule.id, pt.instanceId, rule.labels)).state.Firing?
  {
    var ev := EventFor(rule, pt, now, None);
    var entry := StateEntry(Firing, 1, now, now, rule.severity);
    assert Transition(rule, pt, FreshEntry, now) == (entry, Some(ev));
    assert [] + [RowFor(ev)] == [RowFor(ev)] && [] + [ev] == [ev];
    OneEvent(ev);
    assert Agrees(entry, [RowFor(ev)], [ev]);
    hide KeyOf, Transition, Agrees, Open, EventsFor, Unresolved;
    assert ItemStep(Sys(map[], [], [], 0), Item(rule, pt), now, Never).rows == [RowFor(ev)];
  }

  lemma OneEvent(ev: AlertEvent)
    ensures Unresolved([RowFor(ev)]) == [RowFor(ev)]
    ensures Open([RowFor(ev)], ev.ruleId, ev.instanceId) == [RowFor(ev)]
    ensures EventsFor([ev], ev.ruleId, ev.instanceId) == [ev]
  {
    assert [RowFor(ev)][..0] == [] && [ev][..0] == [];
    assert Unresolved([]) + [RowFor(ev)] == [RowFor(ev)];
  }

  lemma CleanupKeeps(s: Sys, cutoff: int, r: string, i: string)
    requires ColonFreeRows(s.rows) && PairAgrees(s, r, i)
    ensures ColonFreeRows(Cleaned(s.rows, cutoff)) && PairAgrees(s.(rows := Cleaned(s.rows, cutoff)), r, i)
  {
    OpenCleaned(s.rows, cutoff, r, i);
    CleanedColonFree(s.rows, cutoff);
  }

  lemma CleanedColonFree(rows: seq<HistoryRow>, cutoff: int)
    requires ColonFreeRows(rows)
    ensures ColonFreeRows(Cleaned(rows, cutoff))
  {
    forall n | 0 <= n < |Cleaned(rows, cutoff)| ensures ColonFree(Cleaned(rows, cutoff)[n].ruleId) {
      CleanedMembers(rows, cutoff, Cleaned(rows, cutoff)[n]);
    }
  }

  lemma ActionKeeps(s: Sys, a: Action, r: string, i: string)
    requires Possible(s, a) && ColonFree(r) && ColonFreeRows(s.rows) && PairAgrees(s, r, i)
    ensures ColonFreeRows(NextSys(s, a).rows) && PairAgrees(NextSys(s, a), r, i)
  {
    match a
    case Evaluate(rules, points, now) =>
      forall n | 0 <= n < |Items(rules, points)|
        ensures ColonFree(Items(rules, points)[n].rule.id) && Items(rules, points)[n].rule.labels == map[]
      {
        ItemRuleLoaded(rules, points, n);
      }
      EvalKeeps(s, Items(rules, points), now, r, i);
    case Cleanup(cutoff) => CleanupKeeps(s, cutoff, r, i);
    case Restart(listing) => RestartKeeps(s, listing, r, i);
  }

  /** After any run of evaluations, cleanups and restarts over label-free rules, a pair is firing exactly
      when it has one unresolved row, and has none otherwise; its events alternate, and each resolution
      carries the time of the fire before it, across any number of restarts. */
  lemma {:induction false} StateAgreesWithHistory(trace: seq<Action>, r: string, i: string)
    requires After(trace).Reached? && ColonFree(r)
    ensures ColonFreeRows(After(trace).state.rows) && PairAgrees(After(trace).state, r, i)
  {
    if trace != [] {
      var p := After(trace[..|trace| - 1]).state;
      StateAgreesWithHistory(trace[..|trace| - 1], r, i);
      hide PairAgrees, ColonFreeRows, NextSys;
      ActionKeeps(p, trace[|trace| - 1], r, i);
    }
  }

  // ---- the objects themselves

  /** What drives a run: a restart's listing is the store's answer. */
  datatype Input =
    | Batch(rules: seq<Rule>, points: seq<MetricPoint>, now: int)
    | Tidy(cutoff: int)
    | Reboot

  ghost predicate Drives(a: Action, input: Input) {
    match input
    case Batch(rules, points, now) => a == Action.Evaluate(rules, points, now)
    case Tidy(cutoff) => a == Action.Cleanup(cutoff)
    case Reboot => a.Restart?
  }

  ghost predicate Loadable(input: Input) { input.Batch? ==> RuleSet(input.rules) && LabelFree(input.rules) }

  /** A batch evaluated from an empty event list continues the whole run. */
  lemma BatchContinues(s: Sys, items: seq<Item>, now: int)
    ensures EvalItems(s, items, now, Never)
            == Later(EvalItems(Sys(s.state, s.rows, [], 0), items, now, FailsFrom(Never, s.calls)), s.log, s.calls)
  {
    var batch := Sys(s.state, s.rows, [], 0);
    assert Later(batch, s.log, s.calls) == s;
    EvalLater(batch, s.log, s.calls, items, now, Never);
  }

  /** The run after one more action. */
  lemma RunSnoc(trace: seq<Action>, a: Action)
    requires After(trace).Reached? && Possible(After(trace).state, a)
    ensures After(trace + [a]) == Reached(NextSys(After(trace).state, a))
  {
    assert (trace + [a])[..|trace|] == trace;
  }

  method RunBatch(evaluator: Evaluator, rules: seq<Rule>, points: seq<MetricPoint>, now: int, log: seq<AlertEvent>,
                  made: nat)
    returns (log': seq<AlertEvent>, made': nat)
    modifies evaluator, evaluator.store
    ensures Sys(evaluator.state, evaluator.store.rows, log', made')
            == EvalItems(Sys(old(evaluator.state), old(evaluator.store.rows), log, made), Items(rules, points), now,
                         Never)
  {
    hide EvalItems, Items;
    BatchContinues(Sys(evaluator.state, evaluator.store.rows, log, made), Items(rules, points), now);
    evaluator.LoadRules(rules);
    var events, calls := evaluator.Evaluate(points, now, FailsFrom(Never, made));
    log', made' := log + events, made + calls;
  }

  /** A new process on the same history. */
  method Boot(store: HistoryStore) returns (evaluator: Evaluator, ghost listing: seq<HistoryRow>)
    ensures fresh(evaluator) && evaluator.store == store
    ensures IsListing(listing, store.rows) && evaluator.state == Seeded(map[], listing)
  {
    hide IsListing, Seeded;
    evaluator := new Evaluator(store);
    var _ := evaluator.RestoreState(false);
    listing :| IsListing(listing, store.rows) && evaluator.state == Seeded(map[], listing);
  }

  /** One input, given to the objects. */
  method Advance(store: HistoryStore, evaluator: Evaluator, input: Input, log: seq<AlertEvent>, made: nat)
    returns (evaluator': Evaluator, log': seq<AlertEvent>, made': nat, ghost a: Action)
    requires evaluator.store == store && Loadable(input)
    modifies evaluator, store
    ensures evaluator'.store == store && (evaluator' == evaluator || fresh(evaluator')) && Drives(a, input)
    ensures var s := Sys(old(evaluator.state), old(store.rows), log, made);
            Possible(s, a) && Sys(evaluator'.state, store.rows, log', made') == NextSys(s, a)
  {
    hide RuleSet, LabelFree, EvalItems, Items, Cleaned, Seeded, IsListing;
    evaluator', log', made' := evaluator, log, made;
    match input {
      case Batch(rules, points, now) =>
        log', made' := RunBatch(evaluator, rules, points, now, log, made);
        a := Action.Evaluate(rules, points, now);
      case Tidy(cutoff) =>
        var _ := store.Cleanup(cutoff);
        a := Action.Cleanup(cutoff);
      case Reboot =>
        ghost var listing;
        evaluator', listing := Boot(store);
        a := Restart(listing);
    }
  }

  /** An evaluator and a history store driven through batches, cleanups and restarts are at every point the
      values of the run, so that they agree on every pair. */
  method Replay(inputs: seq<Input>)
    returns (store: HistoryStore, evaluator: Evaluator, log: seq<AlertEvent>, ghost trace: seq<Action>)
    requires forall n :: 0 <= n < |inputs| ==> Loadable(inputs[n])
    ensures fresh(store) && fresh(evaluator) && evaluator.store == store
    ensures |trace| == |inputs| && forall n :: 0 <= n < |trace| ==> Drives(trace[n], inputs[n])
    ensures After(trace).Reached?
    ensures var s := After(trace).state; s == Sys(evaluator.state, store.rows, log, s.calls)
    ensures forall r, i :: ColonFree(r) ==> PairAgrees(Sys(evaluator.state, store.rows, log, 0), r, i)
  {
    store := new HistoryStore();
    evaluator := new Evaluator(store);
    log, trace := [], [];
    var made: nat := 0;
    assert After([]) == Reached(Sys(map[], [], [], 0));
    hide After, PairAgrees, ColonFree, Loadable, Drives, Possible, NextSys;
    for k := 0 to |inputs|
      invariant fresh(store) && fresh(evaluator) && evaluator.store == store
      invariant |trace| == k && forall n :: 0 <= n < k ==> Drives(trace[n], inputs[n])
      invariant After(trace) == Reached(Sys(evaluator.state, store.rows, log, made))
    {
      ghost var a;
      evaluator, log, made, a := Advance(store, evaluator, inputs[k], log, made);
      RunSnoc(trace, a);
      trace := trace + [a];
    }
    forall r, i | ColonFree(r) ensures PairAgrees(Sys(evaluator.state, store.rows, log, 0), r, i) {
      StateAgreesWithHistory(trace, r, i);
      CallsDoNotMatter(evaluator.state, store.rows, log, made, r, i);
    }
  }

  lemma CallsDoNotMatter(state: map<string, StateEntry>, rows: seq<HistoryRow>, log: seq<AlertEvent>, made: nat,
                         r: string, i: string)
    ensures PairAgrees(Sys(state, rows, log, made), r, i) == PairAgrees(Sys(state, rows, log, 0), r, i)
  {
  }
}
